/** The fixed puzzle catalogue: every game plays one of these entries. */
module Catalogue {

  /** One catalogue entry: the story shown to the players and its hidden
      explanation. */
  datatype Puzzle = Puzzle(question: string, solution: string)

  const PUZZLES: seq<Puzzle> := [
    Puzzle(
      "ある男がバーに入り、水を一杯くださいと言った。バーテンダーは銃を取り出し、男に向けた。男は「ありがとう」と言って出て行った。なぜ？",
      "男はしゃっくりをしていた。バーテンダーが驚かせて止めてくれた。"),
    Puzzle(
      "ある男が部屋で首を吊って死んでいた。その下には水たまりがあった。椅子やテーブルはなかった。どうやって死んだ？",
      "彼は氷のブロックの上に立って首を吊り、氷が溶けた。"),
    Puzzle(
      "ある女性が夫を撃った。そして彼を5分以上水に沈めた。最後に彼を吊るした。しかし5分後、2人は一緒に外出し、素晴らしいディナーを楽しんだ。どういうこと？",
      "女性は写真家だった。夫の写真を撮影（shoot）し、現像し、乾かすために吊るした（hang）。")
  ]

  /** A (puzzle, solution) pair is one entry of the catalogue. */
  ghost predicate InCatalogue(question: string, solution: string) {
    exists i :: 0 <= i < |PUZZLES| && PUZZLES[i] == Puzzle(question, solution)
  }

  /** The catalogue is not empty, so a start can always pick an entry; every
      story is a non-empty text (so it counts as "set" for the ask handler's
      truthiness test) and differs from its own solution. */
  lemma CatalogueWellFormed()
    ensures |PUZZLES| == 3
    ensures forall i :: 0 <= i < |PUZZLES| ==>
              PUZZLES[i].question != "" && PUZZLES[i].question != PUZZLES[i].solution
  {
  }
}
