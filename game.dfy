/** The server's single in-memory game: the global state record, the start
    handler that replaces it and the ask handler that consults the judging
    oracle and appends to the history. Each handler runs as one atomic step;
    the oracle is a function from prompt text to its reply. */
module Game {
  import opened JsText
  import opened Catalogue
  import opened Prompt

  datatype Option<T> = None | Some(value: T)

  /** One judged question: what the player asked and the answer stored. */
  datatype Entry = Entry(question: string, answer: string)

  /** The value of the global game record; `None` stands for `null`. */
  datatype GameState = GameState(puzzle: Option<string>, solution: Option<string>, history: seq<Entry>)

  /** The record the server starts with: no puzzle, no solution, no history. */
  const Initial: GameState := GameState(None, None, [])

  /** What the oracle does with one prompt: a reply text, or a failure
      (a thrown error anywhere in the call or in reading its text). */
  datatype OracleResult = Ok(text: string) | Fail

  datatype AskError = GameNotStarted | OracleFailed

  /** The error text the ask handler sends for each failure. */
  function ErrorMessage(e: AskError): (r: string)
    ensures e == GameNotStarted ==> r == "Game not started"
    ensures e == OracleFailed ==> r == "Failed to get response from AI"
  {
    match e
    case GameNotStarted => "Game not started"
    case OracleFailed => "Failed to get response from AI"
  }

  datatype StartResponse = StartResponse(puzzle: string)

  datatype AskResponse = Answered(answer: string) | Refused(error: AskError)

  datatype StartOutcome = StartOutcome(state: GameState, response: StartResponse)

  /** The new state, the response, and the prompt handed to the oracle
      (`None` when the oracle was not consulted). */
  datatype AskOutcome = AskOutcome(state: GameState, response: AskResponse, sent: Option<string>)

  /** The ask handler's guard: the puzzle field is truthy, i.e. neither
      `null` nor the empty string. The initial record is not started, and
      neither is one whose puzzle is the empty text. */
  predicate Started(st: GameState)
    ensures st == Initial ==> !Started(st)
    ensures st.puzzle == Some("") ==> !Started(st)
  {
    st.puzzle.Some? && st.puzzle.value != ""
  }

  /** The solution as interpolated into the prompt: a set solution verbatim,
      and `null` as the text "null". */
  function SolutionText(st: GameState): (r: string)
    ensures st.solution.Some? ==> r == st.solution.value
    ensures st.solution == None ==> r == "null"
  {
    if st.solution.Some? then st.solution.value else "null"
  }

  /** The invariant every reachable state keeps: either nothing has been
      started (both fields null, empty history) or the puzzle and the solution
      are the two halves of one catalogue entry. */
  ghost predicate Consistent(st: GameState) {
    (st.puzzle == None && st.solution == None && st.history == [])
    || (st.puzzle.Some? && st.solution.Some? && InCatalogue(st.puzzle.value, st.solution.value))
  }

  /** Start with catalogue index `i`: the whole record is replaced, whatever
      it held before. The new game is started, has an empty history, holds
      entry `i` as its puzzle and solution, and the response carries the
      stored puzzle text, which is never the solution. */
  function StartStep(st: GameState, i: nat): (r: StartOutcome)
    requires i < |PUZZLES|
    ensures Started(r.state) && r.state.history == []
    ensures r.state.puzzle == Some(r.response.puzzle) && r.state.solution.Some?
    ensures PUZZLES[i] == Puzzle(r.response.puzzle, r.state.solution.value)
    ensures r.response.puzzle != r.state.solution.value
  {
    CatalogueWellFormed();
    var chosen := PUZZLES[i];
    StartOutcome(GameState(Some(chosen.question), Some(chosen.solution), []),
                 StartResponse(chosen.question))
  }

  /** Ask `question`, judged by `oracle`. Without a started game the state is
      untouched and the oracle is not consulted. Otherwise the oracle gets the
      prompt for this puzzle, solution and question; on a reply, its trimmed
      text is both the answer returned and the one entry appended to the
      history; on a failure nothing changes. Puzzle and solution never change. */
  function AskStep(st: GameState, question: string, oracle: string -> OracleResult): (r: AskOutcome)
    ensures !Started(st) <==> r.sent == None
    ensures !Started(st) ==> r.state == st && r.response == Refused(GameNotStarted)
    ensures Started(st) ==> r.sent == Some(BuildPrompt(st.puzzle.value, SolutionText(st), question))
    ensures r.response.Answered? <==> r.sent.Some? && oracle(r.sent.value).Ok?
    ensures r.response.Answered? ==>
              r.response.answer == Trim(oracle(r.sent.value).text)
              && r.state == st.(history := st.history + [Entry(question, r.response.answer)])
    ensures r.response.Refused? ==> r.state == st
    ensures r.response == Refused(OracleFailed) <==> r.sent.Some? && oracle(r.sent.value).Fail?
  {
    if !Started(st) then
      AskOutcome(st, Refused(GameNotStarted), None)
    else
      var prompt := BuildPrompt(st.puzzle.value, SolutionText(st), question);
      match oracle(prompt)
      case Ok(text) =>
        var answer := Trim(text);
        AskOutcome(st.(history := st.history + [Entry(question, answer)]), Answered(answer), Some(prompt))
      case Fail =>
        AskOutcome(st, Refused(OracleFailed), Some(prompt))
  }

  /** In a consistent state, the truthiness guard is exactly "a puzzle is set":
      catalogue stories are never empty. */
  lemma StartedIffPuzzleSet(st: GameState)
    requires Consistent(st)
    ensures Started(st) <==> st.puzzle.Some?
  {
  }

  /** A start leaves the record consistent, whatever it held before. */
  lemma StartKeepsConsistent(st: GameState, i: nat)
    requires i < |PUZZLES|
    ensures Consistent(StartStep(st, i).state)
  {
  }

  /** An ask keeps a consistent record consistent. */
  lemma AskKeepsConsistent(st: GameState, question: string, oracle: string -> OracleResult)
    requires Consistent(st)
    ensures Consistent(AskStep(st, question, oracle).state)
  {
  }

  /** The global game record, updated in place by the two handlers. */
  class GameServer {
    var puzzle: Option<string>
    var solution: Option<string>
    var history: seq<Entry>

    function State(): GameState
      reads this
    {
      GameState(puzzle, solution, history)
    }

    ghost predicate Valid()
      reads this
    {
      Consistent(State())
    }

    /** The server comes up with no game started. */
    constructor ()
      ensures State() == Initial && !Started(State()) && Valid()
    {
      puzzle, solution, history := None, None, [];
    }

    /** The start handler; `i` stands for the random catalogue index. */
    method Start(i: nat) returns (response: StartResponse)
      requires i < |PUZZLES|
      modifies this
      ensures StartOutcome(State(), response) == StartStep(old(State()), i)
      ensures Valid()
    {
      var chosen := PUZZLES[i];
      puzzle, solution, history := Some(chosen.question), Some(chosen.solution), [];
      response := StartResponse(puzzle.value);
      assert PUZZLES[i] == Puzzle(puzzle.value, solution.value);
    }

    /** The ask handler; `sent` is the prompt handed to the oracle, if any. */
    method Ask(question: string, oracle: string -> OracleResult) returns (response: AskResponse, sent: Option<string>)
      requires Valid()
      modifies this
      ensures AskOutcome(State(), response, sent) == AskStep(old(State()), question, oracle)
      ensures Valid()
    {
      if puzzle.None? || puzzle.value == "" {
        response, sent := Refused(GameNotStarted), None;
        return;
      }
      var prompt := BuildPrompt(puzzle.value, if solution.Some? then solution.value else "null", question);
      sent := Some(prompt);
      var reply := oracle(prompt);
      if reply.Fail? {
        response := Refused(OracleFailed);
        return;
      }
      var answer := Trim(reply.text);
      history := history + [Entry(question, answer)];
      response := Answered(answer);
      AskKeepsConsistent(old(State()), question, oracle);
    }
  }
}
