/** The text sent to the judging oracle: the game-master instructions of the
    template literal in the ask handler, with the puzzle, its solution and the
    player's question spliced in. */
module Prompt {

  // The fixed pieces of the template, in order; the three fields go between them.
  const Preamble: string :=
    "\n    あなたは「ウミガメのスープ」（水平思考クイズ）のゲームマスターです。\n    \n    問題: "
  const BeforeSolution: string :=
    "\n    正解: "
  const BeforeQuestion: string :=
    "\n    \n    プレイヤーの質問: 「"
  const Instructions: string :=
    "」\n    \n    以下のいずれかで答えてください：\n    - 「はい」（答えが肯定の場合）\n    - 「いいえ」（答えが否定の場合）\n    - 「関係ありません」（質問が正解と無関係、または前提が間違っている場合）\n    - 「正解！」（プレイヤーが謎を解いた、または核心を突いた場合）\n    \n    正解した場合以外は、説明を加えないでください。\n  "

  /** The prompt for one question. Each field appears verbatim at a fixed
      offset determined by the lengths of the fields before it, so the oracle
      receives the puzzle, the hidden solution and the question unchanged. */
  function BuildPrompt(puzzle: string, solution: string, question: string): (r: string)
    ensures |r| == |Preamble| + |puzzle| + |BeforeSolution| + |solution|
                   + |BeforeQuestion| + |question| + |Instructions|
    ensures r[..|Preamble|] == Preamble
    ensures r[|Preamble|..|Preamble| + |puzzle|] == puzzle
    ensures var at := |Preamble| + |puzzle| + |BeforeSolution|;
            r[at..at + |solution|] == solution
    ensures r[|r| - |Instructions| - |question|..|r| - |Instructions|] == question
    ensures r[|r| - |Instructions|..] == Instructions
  {
    Preamble + puzzle + BeforeSolution + solution + BeforeQuestion + question + Instructions
  }

  /** For a fixed game the prompt determines the question: two different
      questions never reach the oracle as the same text. */
  lemma PromptDeterminesQuestion(puzzle: string, solution: string, q1: string, q2: string)
    requires BuildPrompt(puzzle, solution, q1) == BuildPrompt(puzzle, solution, q2)
    ensures q1 == q2
  {
  }
}
