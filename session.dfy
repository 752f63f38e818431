/** Sequences of requests handled one after another by the server, and what
    they do to the game record: the history is an append-only log between
    two starts, and a start always begins a fresh log. */
module Session {
  import opened JsText
  import opened Catalogue
  import opened Prompt
  import opened Game

  /** One request: a start with the index its random draw produced, or an ask
      together with how the oracle replies to prompts at that moment. */
  datatype Request = StartRequest(index: nat) | AskRequest(question: string, oracle: string -> OracleResult)

  predicate Drawable(req: Request) {
    req.StartRequest? ==> req.index < |PUZZLES|
  }

  /** Every start index is one the random draw can produce. */
  predicate AllDrawable(reqs: seq<Request>) {
    forall k :: 0 <= k < |reqs| ==> Drawable(reqs[k])
  }

  predicate OnlyAsks(reqs: seq<Request>) {
    forall k :: 0 <= k < |reqs| ==> reqs[k].AskRequest?
  }

  function Apply(st: GameState, req: Request): GameState
    requires Drawable(req)
  {
    match req
    case StartRequest(i) => StartStep(st, i).state
    case AskRequest(q, oracle) => AskStep(st, q, oracle).state
  }

  /** The record after handling `reqs` in order, starting from `st`. */
  function Run(st: GameState, reqs: seq<Request>): GameState
    requires AllDrawable(reqs)
    decreases |reqs|
  {
    if reqs == [] then st else Run(Apply(st, reqs[0]), reqs[1..])
  }

  /** The entry one ask contributes in a game with this puzzle and solution
      text: its question with the trimmed reply, or nothing if the oracle
      failed. */
  function AnswerOf(puzzle: string, solution: string, req: Request): seq<Entry>
    requires req.AskRequest?
  {
    match req.oracle(BuildPrompt(puzzle, solution, req.question))
    case Ok(text) => [Entry(req.question, Trim(text))]
    case Fail => []
  }

  /** Reference log: the entries that the asks in `reqs` produce in a game
      with this puzzle and solution text, in order, one per question the
      oracle answered, none for a question it failed on. */
  function Answers(puzzle: string, solution: string, reqs: seq<Request>): (log: seq<Entry>)
    requires OnlyAsks(reqs)
    ensures |log| <= |reqs|
  {
    if reqs == [] then [] else AnswerOf(puzzle, solution, reqs[0]) + Answers(puzzle, solution, reqs[1..])
  }

  /** Handling two batches one after the other is handling their concatenation. */
  lemma {:induction false} RunConcat(st: GameState, a: seq<Request>, b: seq<Request>)
    requires AllDrawable(a) && AllDrawable(b)
    ensures AllDrawable(a + b)
    ensures Run(st, a + b) == Run(Run(st, a), b)
    decreases |a|
  {
    if a != [] {
      assert (a + b)[0] == a[0] && (a + b)[1..] == a[1..] + b;
      RunConcat(Apply(st, a[0]), a[1..], b);
    } else {
      assert a + b == b;
    }
  }

  /** Every sequence of requests keeps the record consistent: puzzle and
      solution always come from one catalogue entry, or neither is set and the
      history is empty. */
  lemma {:induction false} RunKeepsConsistent(st: GameState, reqs: seq<Request>)
    requires Consistent(st) && AllDrawable(reqs)
    ensures Consistent(Run(st, reqs))
    decreases |reqs|
  {
    if reqs != [] {
      match reqs[0] {
        case StartRequest(i) => StartKeepsConsistent(st, i);
        case AskRequest(q, oracle) => AskKeepsConsistent(st, q, oracle);
      }
      RunKeepsConsistent(Apply(st, reqs[0]), reqs[1..]);
    }
  }

  /** Before any start, asks change nothing: every one is refused. */
  lemma {:induction false} AsksBeforeStartChangeNothing(st: GameState, reqs: seq<Request>)
    requires !Started(st) && OnlyAsks(reqs)
    ensures AllDrawable(reqs)
    ensures Run(st, reqs) == st
    decreases |reqs|
  {
    if reqs != [] {
      AsksBeforeStartChangeNothing(st, reqs[1..]);
    }
  }

  /** Regrouping a concatenation of three logs; the verifier does not find
      this step unaided inside `AsksAppendAnswers` within its resource limit. */
  lemma ConcatAssociates(a: seq<Entry>, b: seq<Entry>, c: seq<Entry>)
    ensures a + b + c == a + (b + c)
  {
  }

  /** Between starts the history is append-only: a run of asks keeps the
      puzzle and the solution and extends the history by exactly the answered
      questions, in the order they were asked. */
  lemma {:induction false} AsksAppendAnswers(st: GameState, reqs: seq<Request>)
    requires Started(st) && OnlyAsks(reqs)
    ensures AllDrawable(reqs)
    ensures Run(st, reqs)
         == st.(history := st.history + Answers(st.puzzle.value, SolutionText(st), reqs))
    decreases |reqs|
  {
    if reqs != [] {
      var next := Apply(st, reqs[0]);
      var entry := AnswerOf(st.puzzle.value, SolutionText(st), reqs[0]);
      assert next == st.(history := st.history + entry);
      AsksAppendAnswers(next, reqs[1..]);
      var tail := Answers(st.puzzle.value, SolutionText(st), reqs[1..]);
      ConcatAssociates(st.history, entry, tail);
    }
  }

  /** The state after any sequence of requests is determined by the last
      start in it: its catalogue entry, and a history holding exactly the
      answers to the asks that followed it. Nothing before that start
      survives. */
  lemma LastStartDecides(st: GameState, reqs: seq<Request>, k: nat)
    requires AllDrawable(reqs) && k < |reqs| && reqs[k].StartRequest?
    requires OnlyAsks(reqs[k + 1..])
    ensures var chosen := PUZZLES[reqs[k].index];
            Run(st, reqs)
            == GameState(Some(chosen.question), Some(chosen.solution),
                         Answers(chosen.question, chosen.solution, reqs[k + 1..]))
  {
    var before, start, after := reqs[..k], [reqs[k]], reqs[k + 1..];
    assert reqs == before + start + after;
    RunConcat(st, before + start, after);
    RunConcat(st, before, start);
    var started := Run(Run(st, before), start);
    assert started == StartStep(Run(st, before), reqs[k].index).state;
    AsksAppendAnswers(started, after);
  }

  /** When every oracle call succeeds, the log has one entry per question,
      and each entry records the question exactly as it was submitted. */
  lemma {:induction false} AllAnsweredLogsEveryQuestion(puzzle: string, solution: string, reqs: seq<Request>)
    requires OnlyAsks(reqs)
    requires forall k :: 0 <= k < |reqs| ==>
               reqs[k].oracle(BuildPrompt(puzzle, solution, reqs[k].question)).Ok?
    ensures |Answers(puzzle, solution, reqs)| == |reqs|
    ensures forall k :: 0 <= k < |reqs| ==>
              Answers(puzzle, solution, reqs)[k].question == reqs[k].question
    decreases |reqs|
  {
    if reqs != [] {
      AllAnsweredLogsEveryQuestion(puzzle, solution, reqs[1..]);
      var log := Answers(puzzle, solution, reqs);
      var tail := Answers(puzzle, solution, reqs[1..]);
      assert log == [log[0]] + tail;
      forall k | 0 <= k < |reqs|
        ensures log[k].question == reqs[k].question
      {
        if k > 0 { assert log[k] == tail[k - 1]; }
      }
    }
  }

  /** A start always resets: after it, whatever came before, the history is
      empty and the game holds the drawn entry; a second start is not a join. */
  lemma StartResets(st: GameState, reqs: seq<Request>, i: nat)
    requires AllDrawable(reqs) && i < |PUZZLES|
    ensures AllDrawable(reqs + [StartRequest(i)])
    ensures Run(st, reqs + [StartRequest(i)])
         == GameState(Some(PUZZLES[i].question), Some(PUZZLES[i].solution), [])
  {
    RunConcat(st, reqs, [StartRequest(i)]);
  }
}
