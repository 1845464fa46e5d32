/** The game-stream loop of `main`: resolve our colour from the first event,
    then for every later chunk skip blank lines and chat, keep a side-to-move
    flag `stm` that flips on every other event, and on our turn rebuild the
    position from the event's move list, read a move from the operator and
    submit it. JSON parsing, the chess rules and SAN parsing are oracles. */
module TurnLoop {
  import opened Wrappers
  import opened Text
  import opened Channels
  import Json
  import opened BoardReplay

  /** The external collaborators of the loop, over an abstract position type
      `B` and move type `M`. */
  datatype Oracles<!B, M> = Oracles(
    parse: string -> Option<Json.Value>,   // serde_json::from_slice
    start: B,                              // the initial position
    apply: (B, string) -> Option<B>,       // UCI token: parse, check legality, play
    san: (B, string) -> Option<M>)         // operator's SAN text: parse, check legality

  /** Where the loop panics. */
  datatype Fault =
    | NoGameEvent                        // the stream ends before its first chunk
    | UnreadableGameEvent                // the first chunk is an error or not JSON
    | ColourNotString                    // its "color" is not a string
    | TurnFlagNotBool                    // its "isMyTurn" is not a boolean
    | InvalidColour                      // "color" is neither white nor black, and it is not our turn
    | StreamBroken                       // a later chunk is a transport error
    | UnreadableEvent                    // a non-blank chunk is not JSON
    | TypeNotString                      // an event's "type" is not a string
    | InvalidSideToMove                  // `stm` is neither white nor black when flipped
    | IllegalMove(index: nat, token: string)  // a replayed token does not parse or is illegal
    | NoLastMove                         // our turn comes with an empty move list
    | UnreadableMove(input: string)      // the operator's move does not parse or is illegal

  /** How the loop ends: the stream closes, an event has no move list (the
      loop returns), or a panic. */
  datatype Halt = StreamEnded | NoMoveList | Crashed(fault: Fault)

  /** What the loop did with one chunk. */
  datatype Decision<B, M> =
    | Skipped               // blank line or chat: nothing changes
    | Waited                // not our turn: only `stm` flips
    | Acted(board: B, move: M)  // our turn: `move` was submitted in position `board`

  datatype Outcome<B, M> = Outcome(decisions: seq<Decision<B, M>>, halt: Halt)

  predicate IsSide(s: string) {
    s == "white" || s == "black"
  }

  /** The `match stm { "white" => "black", "black" => "white", _ => panic }` flip. */
  function Toggle(stm: string): (r: Option<string>)
    ensures r.Some? <==> IsSide(stm)
    ensures r.Some? ==> IsSide(r.value) && r.value != stm
  {
    if stm == "white" then Some("black")
    else if stm == "black" then Some("white")
    else None
  }

  /** Flipping twice returns to the start. */
  lemma ToggleTwice(s: string)
    requires IsSide(s)
    ensures Toggle(Toggle(s).value) == Some(s)
  {
  }

  /** Our colour, from the first event's "color" and "isMyTurn": kept when it is
      our turn, swapped when it is not. Only the swap checks the name, so an
      unknown colour passes through unchecked when it is our turn. */
  function ResolveColour(game: Json.Value): (r: Result<string, Fault>)
    ensures var colour := Json.AsStr(Json.Index(game, "color"));
            var myTurn := Json.AsBool(Json.Index(game, "isMyTurn"));
            && (r.Success? <==> colour.Some? && myTurn.Some? && (myTurn.value || IsSide(colour.value)))
            && (r.Success? && myTurn.value ==> r.value == colour.value)
            && (r.Success? && !myTurn.value ==> IsSide(r.value) && r.value != colour.value)
  {
    match Json.AsStr(Json.Index(game, "color"))
    case None => Failure(ColourNotString)
    case Some(colour) =>
      match Json.AsBool(Json.Index(game, "isMyTurn"))
      case None => Failure(TurnFlagNotBool)
      case Some(myTurn) =>
        if myTurn then Success(colour)
        else
          match Toggle(colour)
          case None => Failure(InvalidColour)
          case Some(other) => Success(other)
  }

  /** A chunk of the game stream, once read. */
  datatype Event = Blank | Chat | Substantive(v: Json.Value)

  /** Blank lines and chat lines carry no game state. */
  predicate Incidental(e: Event) {
    e.Blank? || e.Chat?
  }

  /** Reading a chunk: blank after trimming, a chat line (its "type" is
      "chatLine"), or a substantive event. */
  function Classify(parse: string -> Option<Json.Value>, c: Chunk): (r: Result<Event, Fault>)
    ensures r.Failure? ==> r.error in {StreamBroken, UnreadableEvent, TypeNotString}
    ensures r == Success(Blank) <==> c.Data? && AllWhitespace(c.text)
    ensures r == Success(Chat) <==>
              && c.Data? && !AllWhitespace(c.text) && parse(c.text).Some?
              && Json.Get(parse(c.text).value, "type") == Some(Json.Str("chatLine"))
    ensures r.Success? && r.value.Substantive? ==>
              && c.Data? && parse(c.text) == Some(r.value.v)
              && Json.Get(r.value.v, "type") != Some(Json.Str("chatLine"))
    ensures r == Failure(StreamBroken) <==> c.Broken?
    ensures r == Failure(UnreadableEvent) <==> c.Data? && !AllWhitespace(c.text) && parse(c.text).None?
    ensures c.Data? && !AllWhitespace(c.text) && parse(c.text).Some? ==>
              var kind := Json.Get(parse(c.text).value, "type");
              && (r == Failure(TypeNotString) <==> kind.Some? && !kind.value.Str?)
              && (r.Success? && r.value.Substantive? <==>
                    kind.None? || (kind.value.Str? && kind.value.s != "chatLine"))
  {
    match c
    case Broken => Failure(StreamBroken)
    case Data(text) =>
      if Trim(text) == [] then Success(Blank)
      else
        match parse(text)
        case None => Failure(UnreadableEvent)
        case Some(v) =>
          match Json.Get(v, "type")
          case None => Success(Substantive(v))
          case Some(t) =>
            match Json.AsStr(t)
            case None => Failure(TypeNotString)
            case Some(kind) => if kind == "chatLine" then Success(Chat) else Success(Substantive(v))
  }

  /** `v.get(key).and_then(|m| m.as_str())`. */
  function StrMember(v: Json.Value, key: string): Option<string> {
    match Json.Get(v, key)
    case None => None
    case Some(m) => Json.AsStr(m)
  }

  /** The move list of an event: "state"."moves" when the event has a "state"
      member, and the top-level "moves" only when it has none. */
  function MovesOf(v: Json.Value): (r: Option<string>)
    ensures Json.Get(v, "state").Some? ==>
              (r.Some? <==> Json.Get(Json.Get(v, "state").value, "moves").Some?
                            && Json.Get(Json.Get(v, "state").value, "moves").value.Str?)
    ensures Json.Get(v, "state").None? ==>
              (r.Some? <==> Json.Get(v, "moves").Some? && Json.Get(v, "moves").value.Str?)
    ensures Json.Get(v, "state").Some? && r.Some? ==>
              Json.Get(Json.Get(v, "state").value, "moves") == Some(Json.Str(r.value))
    ensures Json.Get(v, "state").None? && r.Some? ==>
              Json.Get(v, "moves") == Some(Json.Str(r.value))
  {
    match Json.Get(v, "state")
    case Some(state) => StrMember(state, "moves")
    case None => StrMember(v, "moves")
  }

  /** A "state" member hides the top-level "moves", even when it has no moves of its own. */
  lemma MovesNoFallback(state: Json.Value, moves: string, others: map<string, Json.Value>)
    requires Json.Get(state, "moves").None?
    ensures MovesOf(Json.Object(others["state" := state]["moves" := Json.Str(moves)])) == None
  {
    var fields := others["state" := state]["moves" := Json.Str(moves)];
    assert fields["state"] == state;
  }

  /** With both present, the nested list wins, whatever else "state" holds;
      without "state", the top-level one is used. */
  lemma MovesPreference(state: Json.Value, nested: string, top: string, others: map<string, Json.Value>)
    requires Json.Get(state, "moves") == Some(Json.Str(nested))
    ensures MovesOf(Json.Object(others["state" := state]["moves" := Json.Str(top)])) == Some(nested)
    ensures MovesOf(Json.Object((others - {"state"})["moves" := Json.Str(top)])) == Some(top)
  {
    assert others["state" := state]["moves" := Json.Str(top)]["state"] == state;
    assert "state" !in (others - {"state"})["moves" := Json.Str(top)];
  }

  /** Our turn on event `v`: take its move list, rebuild the position from
      scratch, insist on a last move, read the operator's line, and check it. */
  function Act<B, M>(o: Oracles<B, M>, v: Json.Value, stdin: seq<string>): (r: Result<(B, M, seq<string>), Halt>)
    ensures r.Failure? ==> r.error != Crashed(InvalidSideToMove) && r.error != StreamEnded
    ensures MovesOf(v).None? ==> r == Failure(NoMoveList)
    ensures MovesOf(v).Some? ==>
              var tokens := SplitWhitespace(MovesOf(v).value);
              var replayed := Replay(o.apply, o.start, tokens);
              && (replayed.Failure? ==>
                    r == Failure(Crashed(IllegalMove(replayed.error, tokens[replayed.error]))))
              && (replayed.Success? && tokens == [] ==> r == Failure(Crashed(NoLastMove)))
              && (replayed.Success? && tokens != [] ==>
                    var input := Trim(LineAt(stdin, 0));
                    && (o.san(replayed.value, input).None? ==> r == Failure(Crashed(UnreadableMove(input))))
                    && (o.san(replayed.value, input).Some? ==>
                          r == Success((replayed.value, o.san(replayed.value, input).value, DropLines(stdin, 1)))))
  {
    match MovesOf(v)
    case None => Failure(NoMoveList)
    case Some(moves) =>
      var tokens := SplitWhitespace(moves);
      match Replay(o.apply, o.start, tokens)
      case Failure(i) => Failure(Crashed(IllegalMove(i, tokens[i])))
      case Success(board) =>
        if |tokens| == 0 then Failure(Crashed(NoLastMove))
        else
          Answer(o, board, stdin)
  }

  /** Read the operator's next line and parse it, trimmed, as a move in `board`. */
  function Answer<B, M>(o: Oracles<B, M>, board: B, stdin: seq<string>): (r: Result<(B, M, seq<string>), Halt>)
    ensures var input := Trim(LineAt(stdin, 0));
            && (o.san(board, input).None? ==> r == Failure(Crashed(UnreadableMove(input))))
            && (o.san(board, input).Some? ==> r == Success((board, o.san(board, input).value, DropLines(stdin, 1))))
  {
    ReadLineAt(stdin, 0);
    var (line, rest) := ReadLine(stdin);
    var input := Trim(line);
    match o.san(board, input)
    case None => Failure(Crashed(UnreadableMove(input)))
    case Some(move) => Success((board, move, rest))
  }

  /** The loop's state between chunks: the side-to-move flag and the unread
      operator input. */
  datatype LoopState = LoopState(stm: string, stdin: seq<string>)

  /** One chunk's effect: carry on with a decision and a new state, or stop
      after the listed decisions. */
  datatype StepResult<B, M> =
    | Continue(decision: Decision<B, M>, next: LoopState)
    | Stop(decisions: seq<Decision<B, M>>, halt: Halt)

  /** One iteration of `while let Some(line) = stream.next()`. */
  function Step<B, M>(o: Oracles<B, M>, colour: string, st: LoopState, c: Chunk): (r: StepResult<B, M>)
    ensures Classify(o.parse, c).Success? && Incidental(Classify(o.parse, c).value) ==>
              r == Continue(Skipped, st)
    ensures r.Continue? && r.decision.Waited? <==>
              Classify(o.parse, c).Success? && Classify(o.parse, c).value.Substantive?
              && st.stm != colour && IsSide(st.stm)
    ensures r.Continue? && r.decision.Waited? ==>
              r.next == LoopState(Toggle(st.stm).value, st.stdin)
    ensures r.Continue? && r.decision.Acted? ==>
              st.stm == colour && IsSide(st.stm) && r.next.stm == Toggle(st.stm).value
    ensures IsSide(colour) && IsSide(st.stm) ==>
              && (r.Continue? ==> IsSide(r.next.stm))
              && (r.Stop? ==> r.decisions == [] && r.halt != Crashed(InvalidSideToMove))
    ensures r.Continue? && r.decision.Skipped? ==> r.next == st
    ensures r.Stop? ==> |r.decisions| <= 1
    ensures r.Stop? && r.decisions != [] ==>
              r.decisions[0].Acted? && !IsSide(st.stm) && r.halt == Crashed(InvalidSideToMove)
  {
    var event := Classify(o.parse, c);
    if event.Failure? then Stop([], Crashed(event.error))
    else if Incidental(event.value) then Continue(Skipped, st)
    else if st.stm != colour then
      var flipped := Toggle(st.stm);
      if flipped.None? then Stop([], Crashed(InvalidSideToMove))
      else Continue(Waited, LoopState(flipped.value, st.stdin))
    else
      var acted := Act(o, event.value.v, st.stdin);
      if acted.Failure? then Stop([], acted.error)
      else
        var (board, move, rest) := acted.value;
        var flipped := Toggle(st.stm);
        if flipped.None? then Stop([Acted(board, move)], Crashed(InvalidSideToMove))
        else Continue(Acted(board, move), LoopState(flipped.value, rest))
  }

  /** How a step stops: an unreadable chunk panics with its reading fault, a
      flip of a side-to-move that names no side panics, and a failed turn ends
      the loop with that turn's halt (a panic, or the return on a missing move
      list). In every other case the step lets the loop continue. */
  lemma StepHalts<B, M>(o: Oracles<B, M>, colour: string, st: LoopState, c: Chunk)
    ensures var event := Classify(o.parse, c);
            var r := Step(o, colour, st, c);
            && (event.Failure? ==> r == Stop([], Crashed(event.error)))
            && (event.Success? && event.value.Substantive? && st.stm != colour && !IsSide(st.stm) ==>
                  r == Stop([], Crashed(InvalidSideToMove)))
            && (event.Success? && event.value.Substantive? && st.stm == colour ==>
                  var acted := Act(o, event.value.v, st.stdin);
                  && (acted.Failure? ==> r == Stop([], acted.error))
                  && (acted.Success? && !IsSide(st.stm) ==>
                        r == Stop([Acted(acted.value.0, acted.value.1)], Crashed(InvalidSideToMove))))
            && (r.Stop? ==> r.halt != StreamEnded)
            && (r.Stop? <==>
                  || event.Failure?
                  || (event.value.Substantive? &&
                      (!IsSide(st.stm) || (st.stm == colour && Act(o, event.value.v, st.stdin).Failure?))))
  {
  }

  function Prepend<B, M>(d: Decision<B, M>, out: Outcome<B, M>): Outcome<B, M> {
    Outcome([d] + out.decisions, out.halt)
  }

  /** The loop over the rest of the stream. */
  function Run<B, M>(o: Oracles<B, M>, colour: string, st: LoopState, chunks: seq<Chunk>): (r: Outcome<B, M>)
    ensures |r.decisions| <= |chunks|
    decreases |chunks|
  {
    if |chunks| == 0 then Outcome([], StreamEnded)
    else
      match Step(o, colour, st, chunks[0])
      case Stop(ds, h) => Outcome(ds, h)
      case Continue(d, next) => Prepend(d, Run(o, colour, next, chunks[1..]))
  }

  /** One step of the loop as a function value, for stating where the loop stops. */
  type Stepper<B, M> = (LoopState, Chunk) -> StepResult<B, M>

  function StepOf<B, M>(o: Oracles<B, M>, colour: string): Stepper<B, M> {
    (st: LoopState, c: Chunk) => Step(o, colour, st, c)
  }

  /** The loop state on reaching chunk `k`, or `None` when a chunk before it
      stopped the loop. */
  function StateAt<B, M>(step: Stepper<B, M>, st: LoopState, chunks: seq<Chunk>, k: nat): Option<LoopState>
    requires k <= |chunks|
    decreases k
  {
    if k == 0 then Some(st)
    else
      match step(st, chunks[0])
      case Stop(_, _) => None
      case Continue(_, next) => StateAt(step, next, chunks[1..], k - 1)
  }

  /** Chunk `k` is reached and its step stops the loop, and `out` ends with
      that step: one decision per earlier chunk, then the step's own decisions
      and its halt. */
  ghost predicate StopsAt<B, M>(step: Stepper<B, M>, st: LoopState, chunks: seq<Chunk>, k: nat, out: Outcome<B, M>) {
    && k < |chunks|
    && StateAt(step, st, chunks, k).Some?
    && var r := step(StateAt(step, st, chunks, k).value, chunks[k]);
       && r.Stop?
       && out.halt == r.halt
       && |out.decisions| == k + |r.decisions|
       && out.decisions[k..] == r.decisions
  }

  /** The loop ends with the end of the stream exactly when every chunk lets it
      continue, and then with one decision per chunk; otherwise it ends as the
      first step that stops. */
  ghost predicate Halts<B, M>(step: Stepper<B, M>, st: LoopState, chunks: seq<Chunk>, r: Outcome<B, M>) {
    && (r.halt == StreamEnded <==> StateAt(step, st, chunks, |chunks|).Some?)
    && (r.halt == StreamEnded ==> |r.decisions| == |chunks|)
    && (r.halt != StreamEnded ==> exists k :: StopsAt(step, st, chunks, k, r))
  }

  /** How the loop ends: the stream runs out, or the first step that stops
      gives the halt (a panic, or the return on a missing move list). */
  lemma {:induction false} RunHalts<B, M>(o: Oracles<B, M>, colour: string, st: LoopState, chunks: seq<Chunk>)
    ensures Halts(StepOf(o, colour), st, chunks, Run(o, colour, st, chunks))
    decreases |chunks|
  {
    if |chunks| > 0 {
      var r := Step(o, colour, st, chunks[0]);
      if r.Stop? {
        StepHalts(o, colour, st, chunks[0]);
        RunStop(o, colour, st, chunks, r.decisions, r.halt);
        HaltsAtStop(StepOf(o, colour), st, chunks, r.decisions, r.halt);
      } else {
        RunHalts(o, colour, r.next, chunks[1..]);
        RunContinue(o, colour, st, chunks, r.decision, r.next);
        HaltsAfterContinue(StepOf(o, colour), st, chunks, r.decision, r.next, Run(o, colour, r.next, chunks[1..]));
      }
    }
  }

  lemma HaltsAtStop<B, M>(step: Stepper<B, M>, st: LoopState, chunks: seq<Chunk>, ds: seq<Decision<B, M>>, h: Halt)
    requires |chunks| > 0 && step(st, chunks[0]) == Stop(ds, h) && h != StreamEnded
    ensures Halts(step, st, chunks, Outcome(ds, h))
  {
    assert StateAt(step, st, chunks, |chunks|).None?;
    assert StopsAt(step, st, chunks, 0, Outcome(ds, h));
  }

  lemma HaltsAfterContinue<B, M>(step: Stepper<B, M>, st: LoopState, chunks: seq<Chunk>,
                                 d: Decision<B, M>, next: LoopState, rest: Outcome<B, M>)
    requires |chunks| > 0 && step(st, chunks[0]) == Continue(d, next)
    requires Halts(step, next, chunks[1..], rest)
    ensures Halts(step, st, chunks, Prepend(d, rest))
  {
    assert StateAt(step, st, chunks, |chunks|) == StateAt(step, next, chunks[1..], |chunks| - 1);
    if rest.halt != StreamEnded {
      var k :| StopsAt(step, next, chunks[1..], k, rest);
      StopsAtShift(step, st, chunks, d, next, k, rest);
    }
  }

  /** No chunk after a stop is reached. */
  lemma {:induction false} NoStateAfterStop<B, M>(step: Stepper<B, M>, st: LoopState, chunks: seq<Chunk>, k: nat, j: nat)
    requires k < j <= |chunks|
    requires StateAt(step, st, chunks, k).Some? && step(StateAt(step, st, chunks, k).value, chunks[k]).Stop?
    ensures StateAt(step, st, chunks, j).None?
    decreases k
  {
    if k > 0 {
      var next := step(st, chunks[0]).next;
      assert StateAt(step, st, chunks, k) == StateAt(step, next, chunks[1..], k - 1);
      assert chunks[k] == chunks[1..][k - 1];
      NoStateAfterStop(step, next, chunks[1..], k - 1, j - 1);
    }
  }

  /** When the loop ends in a stop, it is the stop at the first chunk whose step stops. */
  lemma FirstStopDecides<B, M>(step: Stepper<B, M>, st: LoopState, chunks: seq<Chunk>, k: nat, r: Outcome<B, M>)
    requires Halts(step, st, chunks, r)
    requires k < |chunks|
    requires StateAt(step, st, chunks, k).Some? && step(StateAt(step, st, chunks, k).value, chunks[k]).Stop?
    ensures StopsAt(step, st, chunks, k, r)
  {
    NoStateAfterStop(step, st, chunks, k, |chunks|);
    var k': nat :| StopsAt(step, st, chunks, k', r);
    if k' < k {
      NoStateAfterStop(step, st, chunks, k', k);
    } else if k < k' {
      NoStateAfterStop(step, st, chunks, k, k');
    }
  }

  /** The loop ends as the first chunk whose step stops it: with that step's
      halt, after one decision per earlier chunk. With `StepHalts` this says
      that an unreadable chunk, a failed turn or a bad flip ends the loop with
      its own fault. */
  lemma RunEndsAtFirstStop<B, M>(o: Oracles<B, M>, colour: string, st: LoopState, chunks: seq<Chunk>, k: nat)
    requires k < |chunks| && StateAt(StepOf(o, colour), st, chunks, k).Some?
    requires Step(o, colour, StateAt(StepOf(o, colour), st, chunks, k).value, chunks[k]).Stop?
    ensures var r := Run(o, colour, st, chunks);
            var stop := Step(o, colour, StateAt(StepOf(o, colour), st, chunks, k).value, chunks[k]);
            r.halt == stop.halt && |r.decisions| == k + |stop.decisions| && r.decisions[k..] == stop.decisions
  {
    RunHalts(o, colour, st, chunks);
    FirstStopDecides(StepOf(o, colour), st, chunks, k, Run(o, colour, st, chunks));
  }

  /** A stop `k` chunks into the rest of the stream is a stop at `k + 1` in the whole. */
  lemma StopsAtShift<B, M>(step: Stepper<B, M>, st: LoopState, chunks: seq<Chunk>,
                           d: Decision<B, M>, next: LoopState, k: nat, rest: Outcome<B, M>)
    requires |chunks| > 0 && step(st, chunks[0]) == Continue(d, next)
    requires StopsAt(step, next, chunks[1..], k, rest)
    ensures StopsAt(step, st, chunks, k + 1, Prepend(d, rest))
  {
    assert StateAt(step, st, chunks, k + 1) == StateAt(step, next, chunks[1..], k);
    assert chunks[k + 1] == chunks[1..][k];
    assert Prepend(d, rest).decisions[k + 1..] == rest.decisions[k..];
  }

  /** `main` from the game stream on: the first chunk fixes our colour, `stm`
      starts equal to it, and the loop consumes the remaining chunks. */
  function PlayGame<B, M>(o: Oracles<B, M>, stream: seq<Chunk>, stdin: seq<string>): (r: Outcome<B, M>)
    ensures |stream| == 0 ==> r == Outcome([], Crashed(NoGameEvent))
    ensures |stream| > 0 && (stream[0].Broken? || o.parse(stream[0].text).None?) ==>
              r == Outcome([], Crashed(UnreadableGameEvent))
    ensures r.decisions != [] ==> |r.decisions| < |stream|
    ensures |stream| > 0 && stream[0].Data? && o.parse(stream[0].text).Some? ==>
              var colour := ResolveColour(o.parse(stream[0].text).value);
              && (colour.Failure? ==> r == Outcome([], Crashed(colour.error)))
              && (colour.Success? ==> r == Run(o, colour.value, LoopState(colour.value, stdin), stream[1..]))
  {
    if |stream| == 0 then Outcome([], Crashed(NoGameEvent))
    else if stream[0].Broken? then Outcome([], Crashed(UnreadableGameEvent))
    else
      match o.parse(stream[0].text)
      case None => Outcome([], Crashed(UnreadableGameEvent))
      case Some(game) =>
        match ResolveColour(game)
        case Failure(f) => Outcome([], Crashed(f))
        case Success(colour) => Run(o, colour, LoopState(colour, stdin), stream[1..])
  }

  /** The decisions that were not skips, in order. */
  function Visible<B, M>(ds: seq<Decision<B, M>>): (r: seq<Decision<B, M>>)
    ensures forall k :: 0 <= k < |r| ==> !r[k].Skipped?
    decreases |ds|
  {
    if |ds| == 0 then []
    else if ds[0].Skipped? then Visible(ds[1..])
    else [ds[0]] + Visible(ds[1..])
  }

  lemma VisibleCons<B, M>(d: Decision<B, M>, ds: seq<Decision<B, M>>)
    ensures Visible([d] + ds) == if d.Skipped? then Visible(ds) else [d] + Visible(ds)
  {
    assert ([d] + ds)[1..] == ds;
  }

  /** Acting and waiting alternate, beginning with acting when `first` holds. */
  ghost predicate Alternates<B, M>(ds: seq<Decision<B, M>>, first: bool) {
    forall k :: 0 <= k < |ds| ==> !ds[k].Skipped? && (ds[k].Acted? <==> ((k % 2 == 0) == first))
  }

  lemma AlternatesCons<B, M>(d: Decision<B, M>, ds: seq<Decision<B, M>>, first: bool)
    requires Alternates(ds, !first)
    requires !d.Skipped? && (d.Acted? <==> first)
    ensures Alternates([d] + ds, first)
  {
    forall k | 0 < k < |[d] + ds|
      ensures ([d] + ds)[k].Acted? <==> ((k % 2 == 0) == first)
    {
      assert ([d] + ds)[k] == ds[k - 1];
      assert (k % 2 == 0) <==> ((k - 1) % 2 != 0);
    }
  }

  /** The turn-taking property: with both `colour` and `stm` naming a side, the
      substantive events are acted on and waited on in strict alternation,
      starting with acting exactly when `stm` equals `colour`; blank and chat
      chunks take no part, and `stm` never leaves {white, black}. */
  lemma {:induction false} Alternation<B, M>(o: Oracles<B, M>, colour: string, st: LoopState, chunks: seq<Chunk>)
    requires IsSide(colour) && IsSide(st.stm)
    ensures Alternates(Visible(Run(o, colour, st, chunks).decisions), st.stm == colour)
    ensures Run(o, colour, st, chunks).halt != Crashed(InvalidSideToMove)
    decreases |chunks|
  {
    if |chunks| > 0 {
      match Step(o, colour, st, chunks[0])
      case Stop(ds, h) =>
      case Continue(d, next) =>
        var rest := Run(o, colour, next, chunks[1..]);
        Alternation(o, colour, next, chunks[1..]);
        VisibleCons(d, rest.decisions);
        if !d.Skipped? {
          assert next.stm == colour <==> st.stm != colour;
          AlternatesCons(d, Visible(rest.decisions), st.stm == colour);
        }
    }
  }

  /** Decision `d` fits chunk `c`: the chunk was read, `d` is a skip exactly
      when the chunk is blank or chat, and an action was taken on it. */
  ghost predicate DecidedOn<B, M>(o: Oracles<B, M>, c: Chunk, d: Decision<B, M>) {
    && Classify(o.parse, c).Success?
    && (d.Skipped? <==> Incidental(Classify(o.parse, c).value))
    && (d.Acted? ==> ActedOn(o, c, d.board, d.move))
  }

  /** `fits(xs[k], ys[k])` for every position of the shorter `ys`. */
  ghost predicate Pairwise<X, Y>(fits: (X, Y) -> bool, xs: seq<X>, ys: seq<Y>) {
    && |ys| <= |xs|
    && forall k :: 0 <= k < |ys| ==> fits(xs[k], ys[k])
  }

  lemma PairwiseCons<X, Y>(fits: (X, Y) -> bool, xs: seq<X>, y: Y, ys: seq<Y>)
    requires |xs| > 0 && fits(xs[0], y) && Pairwise(fits, xs[1..], ys)
    ensures Pairwise(fits, xs, [y] + ys)
  {
    forall k | 0 < k < |ys| + 1
      ensures fits(xs[k], ([y] + ys)[k])
    {
      assert xs[k] == xs[1..][k - 1] && ([y] + ys)[k] == ys[k - 1];
    }
  }

  ghost function Fits<B, M>(o: Oracles<B, M>): (Chunk, Decision<B, M>) -> bool {
    (c, d) => DecidedOn(o, c, d)
  }

  /** Decision `k` fits chunk `k`, for every decision. */
  ghost predicate FollowsChunks<B, M>(o: Oracles<B, M>, chunks: seq<Chunk>, ds: seq<Decision<B, M>>) {
    Pairwise(Fits(o), chunks, ds)
  }

  lemma StopFollowsChunks<B, M>(o: Oracles<B, M>, colour: string, st: LoopState, chunks: seq<Chunk>,
                                ds: seq<Decision<B, M>>, h: Halt)
    requires |chunks| > 0 && Step(o, colour, st, chunks[0]) == Stop(ds, h)
    ensures FollowsChunks(o, chunks, ds)
  {
    StepDecidedOn(o, colour, st, chunks[0]);
    if ds != [] {
      PairwiseCons(Fits(o), chunks, ds[0], []);
      assert ds == [ds[0]] + [];
    }
  }

  /** Every decision belongs to the chunk at the same position: skips are
      exactly the blank and chat chunks, and every action was taken on a
      substantive event whose full move list, replayed from the initial
      position, gives the position the move was chosen in. */
  lemma {:induction false} DecisionsFollowChunks<B, M>(o: Oracles<B, M>, colour: string, st: LoopState, chunks: seq<Chunk>)
    ensures FollowsChunks(o, chunks, Run(o, colour, st, chunks).decisions)
    decreases |chunks|
  {
    if |chunks| > 0 {
      match Step(o, colour, st, chunks[0])
      case Stop(ds, h) =>
        RunStop(o, colour, st, chunks, ds, h);
        StopFollowsChunks(o, colour, st, chunks, ds, h);
      case Continue(d, next) =>
        StepDecidedOn(o, colour, st, chunks[0]);
        RunContinue(o, colour, st, chunks, d, next);
        DecisionsFollowChunks(o, colour, next, chunks[1..]);
        PairwiseCons(Fits(o), chunks, d, Run(o, colour, next, chunks[1..]).decisions);
    }
  }

  /** Chunk `c` is a substantive event on which acting yields `board` and `move`. */
  ghost predicate ActedOn<B, M>(o: Oracles<B, M>, c: Chunk, board: B, move: M) {
    && Classify(o.parse, c).Success?
    && Classify(o.parse, c).value.Substantive?
    && ActedOnEvent(o, Classify(o.parse, c).value.v, board, move)
  }

  /** Event `v` has a non-empty move list that replays to `board`, and `move`
      is the operator's move in that position. */
  ghost predicate ActedOnEvent<B, M>(o: Oracles<B, M>, v: Json.Value, board: B, move: M) {
    && MovesOf(v).Some?
    && SplitWhitespace(MovesOf(v).value) != []
    && Replay(o.apply, o.start, SplitWhitespace(MovesOf(v).value)) == Success(board)
    && exists input :: o.san(board, input) == Some(move)
  }

  lemma ActSucceeded<B, M>(o: Oracles<B, M>, v: Json.Value, stdin: seq<string>)
    requires Act(o, v, stdin).Success?
    ensures ActedOnEvent(o, v, Act(o, v, stdin).value.0, Act(o, v, stdin).value.1)
  {
    var r := Act(o, v, stdin);
    assert MovesOf(v).Some?;
    var tokens := SplitWhitespace(MovesOf(v).value);
    assert Replay(o.apply, o.start, tokens).Success? && tokens != [] by {
      assert r.Success?;
    }
    var board := Replay(o.apply, o.start, tokens).value;
    var input := Trim(LineAt(stdin, 0));
    assert r == Answer(o, board, stdin);
    assert o.san(board, input).Some?;
    assert r.value.0 == board && o.san(board, input) == Some(r.value.1);
    assert ActedOnEvent(o, v, board, r.value.1);
  }

  lemma StepDecidedOn<B, M>(o: Oracles<B, M>, colour: string, st: LoopState, c: Chunk)
    ensures var r := Step(o, colour, st, c);
            && (r.Continue? ==> DecidedOn(o, c, r.decision))
            && (r.Stop? && r.decisions != [] ==> DecidedOn(o, c, r.decisions[0]))
  {
    var event := Classify(o.parse, c);
    if event.Success? && event.value.Substantive? && st.stm == colour && Act(o, event.value.v, st.stdin).Success? {
      ActSucceeded(o, event.value.v, st.stdin);
    }
  }

  lemma InsertAtFront<T>(xs: seq<T>, c: T)
    ensures |xs[..0] + [c] + xs[0..]| > 0
    ensures (xs[..0] + [c] + xs[0..])[0] == c && (xs[..0] + [c] + xs[0..])[1..] == xs
  {
    assert xs[..0] + [c] + xs[0..] == [c] + xs;
  }

  lemma InsertAfterHead<T>(xs: seq<T>, i: nat, c: T)
    requires 0 < i <= |xs|
    ensures (xs[..i] + [c] + xs[i..])[0] == xs[0]
    ensures (xs[..i] + [c] + xs[i..])[1..] == xs[1..][..i - 1] + [c] + xs[1..][i - 1..]
  {
    assert xs[..i] == [xs[0]] + xs[1..][..i - 1];
    assert xs[i..] == xs[1..][i - 1..];
  }

  /** Blank and chat chunks are invisible: inserting one anywhere in the stream
      changes neither the visible decisions nor how the loop ends. */
  lemma {:induction false} IncidentalChunksInvisible<B, M>(o: Oracles<B, M>, colour: string, st: LoopState,
                                                          chunks: seq<Chunk>, i: nat, c: Chunk)
    requires i <= |chunks|
    requires Classify(o.parse, c).Success? && Incidental(Classify(o.parse, c).value)
    ensures var with := Run(o, colour, st, chunks[..i] + [c] + chunks[i..]);
            var without := Run(o, colour, st, chunks);
            Visible(with.decisions) == Visible(without.decisions) && with.halt == without.halt
    decreases i
  {
    if i == 0 {
      InvisibleAtHead(o, colour, st, chunks, c);
    } else {
      var r := Step(o, colour, st, chunks[0]);
      if r.Stop? {
        InvisibleAfterStop(o, colour, st, chunks, i, c, r.decisions, r.halt);
      } else {
        IncidentalChunksInvisible(o, colour, r.next, chunks[1..], i - 1, c);
        InvisibleAfterContinue(o, colour, st, chunks, i, c, r.decision, r.next);
      }
    }
  }

  /** An incidental chunk in front is skipped without touching the state. */
  lemma InvisibleAtHead<B, M>(o: Oracles<B, M>, colour: string, st: LoopState, chunks: seq<Chunk>, c: Chunk)
    requires Classify(o.parse, c).Success? && Incidental(Classify(o.parse, c).value)
    ensures var with := Run(o, colour, st, chunks[..0] + [c] + chunks[0..]);
            var without := Run(o, colour, st, chunks);
            Visible(with.decisions) == Visible(without.decisions) && with.halt == without.halt
  {
    var all := chunks[..0] + [c] + chunks[0..];
    InsertAtFront(chunks, c);
    RunContinue(o, colour, st, all, Skipped, st);
    VisibleCons(Skipped, Run(o, colour, st, chunks).decisions);
  }

  /** A stop at the first chunk happens whatever comes after it. */
  lemma InvisibleAfterStop<B, M>(o: Oracles<B, M>, colour: string, st: LoopState,
                                 chunks: seq<Chunk>, i: nat, c: Chunk, ds: seq<Decision<B, M>>, h: Halt)
    requires 0 < i <= |chunks|
    requires Step(o, colour, st, chunks[0]) == Stop(ds, h)
    ensures Run(o, colour, st, chunks[..i] + [c] + chunks[i..]) == Run(o, colour, st, chunks)
  {
    InsertAfterHead(chunks, i, c);
    RunStop(o, colour, st, chunks[..i] + [c] + chunks[i..], ds, h);
    RunStop(o, colour, st, chunks, ds, h);
  }

  /** The inductive step of `IncidentalChunksInvisible`: the first chunk lets
      the loop continue, and the insertion happens in the rest. */
  lemma InvisibleAfterContinue<B, M>(o: Oracles<B, M>, colour: string, st: LoopState,
                                     chunks: seq<Chunk>, i: nat, c: Chunk, d: Decision<B, M>, next: LoopState)
    requires 0 < i <= |chunks|
    requires Step(o, colour, st, chunks[0]) == Continue(d, next)
    requires var with := Run(o, colour, next, chunks[1..][..i - 1] + [c] + chunks[1..][i - 1..]);
             var without := Run(o, colour, next, chunks[1..]);
             Visible(with.decisions) == Visible(without.decisions) && with.halt == without.halt
    ensures var with := Run(o, colour, st, chunks[..i] + [c] + chunks[i..]);
            var without := Run(o, colour, st, chunks);
            Visible(with.decisions) == Visible(without.decisions) && with.halt == without.halt
  {
    var all := chunks[..i] + [c] + chunks[i..];
    var tail := chunks[1..][..i - 1] + [c] + chunks[1..][i - 1..];
    InsertAfterHead(chunks, i, c);
    RunContinue(o, colour, st, all, d, next);
    RunContinue(o, colour, st, chunks, d, next);
    VisibleCons(d, Run(o, colour, next, tail).decisions);
    VisibleCons(d, Run(o, colour, next, chunks[1..]).decisions);
  }

  /** With a colour that names no side (possible only when it is our turn at the
      start, as that path does not check it), the loop acts on at most one event
      and then panics when it flips `stm`. */
  lemma {:induction false} UncheckedColourActsOnce<B, M>(o: Oracles<B, M>, colour: string, stdin: seq<string>, chunks: seq<Chunk>)
    requires !IsSide(colour)
    ensures var out := Run(o, colour, LoopState(colour, stdin), chunks);
            && |Visible(out.decisions)| <= 1
            && (Visible(out.decisions) != [] ==>
                  Visible(out.decisions)[0].Acted? && out.halt == Crashed(InvalidSideToMove))
    decreases |chunks|
  {
    if |chunks| > 0 {
      var st := LoopState(colour, stdin);
      match Step(o, colour, st, chunks[0])
      case Stop(ds, h) =>
        RunStop(o, colour, st, chunks, ds, h);
        if ds != [] {
          assert ds == [ds[0]] + [];
          VisibleCons(ds[0], []);
        }
      case Continue(d, next) =>
        assert next == st;
        RunContinue(o, colour, st, chunks, d, next);
        UncheckedColourActsOnce(o, colour, stdin, chunks[1..]);
        VisibleCons(d, Run(o, colour, next, chunks[1..]).decisions);
    }
  }

  /** The first event names a side in its "color" member. */
  ghost predicate FirstEventNamesSide<B, M>(o: Oracles<B, M>, stream: seq<Chunk>) {
    && |stream| > 0
    && stream[0].Data?
    && o.parse(stream[0].text).Some?
    && var colour := Json.AsStr(Json.Index(o.parse(stream[0].text).value, "color"));
       colour.Some? && IsSide(colour.value)
  }

  /** From the start of a game whose first event names a side, the loop acts on
      the 1st, 3rd, 5th, ... substantive event and waits on the others. */
  lemma PlayGameAlternates<B, M>(o: Oracles<B, M>, stream: seq<Chunk>, stdin: seq<string>)
    requires FirstEventNamesSide(o, stream)
    ensures Alternates(Visible(PlayGame(o, stream, stdin).decisions), true)
    ensures PlayGame(o, stream, stdin).halt != Crashed(InvalidSideToMove)
  {
    var game := o.parse(stream[0].text).value;
    match ResolveColour(game)
    case Failure(f) =>
    case Success(colour) =>
      Alternation(o, colour, LoopState(colour, stdin), stream[1..]);
  }

  lemma StepActs<B, M>(o: Oracles<B, M>, colour: string, st: LoopState, c: Chunk, v: Json.Value,
                       board: B, move: M, rest: seq<string>)
    requires Classify(o.parse, c) == Success(Substantive(v))
    requires st.stm == colour && IsSide(colour)
    requires Act(o, v, st.stdin) == Success((board, move, rest))
    ensures Step(o, colour, st, c) == Continue(Acted(board, move), LoopState(Toggle(colour).value, rest))
  {
    var event := Classify(o.parse, c);
    assert event.Success? && !Incidental(event.value) && event.value.v == v;
    var acted := Act(o, event.value.v, st.stdin);
    assert acted.Success? && acted.value == (board, move, rest);
    assert Toggle(st.stm) == Some(Toggle(colour).value);
  }

  /** Once the move list replays to a position, our turn is the operator's answer in it. */
  lemma ActAnswers<B, M>(o: Oracles<B, M>, v: Json.Value, stdin: seq<string>, board: B)
    requires MovesOf(v).Some? && SplitWhitespace(MovesOf(v).value) != []
    requires Replay(o.apply, o.start, SplitWhitespace(MovesOf(v).value)) == Success(board)
    ensures Act(o, v, stdin) == Answer(o, board, stdin)
  {
  }

  lemma ActOnFirstMove<B, M>(o: Oracles<B, M>, v: Json.Value, first: string, after: B, stdin: seq<string>, reply: M)
    requires first != [] && NoWhitespace(first)
    requires MovesOf(v) == Some(first)
    requires o.apply(o.start, first) == Some(after)
    requires o.san(after, Trim(LineAt(stdin, 0))) == Some(reply)
    ensures Act(o, v, stdin) == Success((after, reply, DropLines(stdin, 1)))
  {
    SplitWhitespaceSingle(first);
    assert SplitWhitespace(MovesOf(v).value) == [first];
    assert Replay(o.apply, o.start, [first]) == Success(after) by {
      assert [first][1..] == [];
    }
    ActAnswers(o, v, stdin, after);
  }

  lemma MovesOfTopLevel(v: Json.Value, moves: string)
    requires Json.Get(v, "state").None? && Json.Get(v, "moves") == Some(Json.Str(moves))
    ensures MovesOf(v) == Some(moves)
  {
    assert StrMember(v, "moves") == Some(moves);
  }

  lemma ClassifyGameState(parse: string -> Option<Json.Value>, text: string, v: Json.Value)
    requires !AllWhitespace(text) && parse(text) == Some(v)
    requires Json.Get(v, "type") == Some(Json.Str("gameState"))
    ensures Classify(parse, Data(text)) == Success(Substantive(v))
  {
  }

  lemma RunContinue<B, M>(o: Oracles<B, M>, colour: string, st: LoopState, chunks: seq<Chunk>,
                          d: Decision<B, M>, next: LoopState)
    requires |chunks| > 0 && Step(o, colour, st, chunks[0]) == Continue(d, next)
    ensures Run(o, colour, st, chunks) == Prepend(d, Run(o, colour, next, chunks[1..]))
  {
  }

  lemma RunStop<B, M>(o: Oracles<B, M>, colour: string, st: LoopState, chunks: seq<Chunk>,
                      ds: seq<Decision<B, M>>, h: Halt)
    requires |chunks| > 0 && Step(o, colour, st, chunks[0]) == Stop(ds, h)
    ensures Run(o, colour, st, chunks) == Outcome(ds, h)
  {
  }

  lemma RunSingleContinue<B, M>(o: Oracles<B, M>, colour: string, st: LoopState, c: Chunk,
                                d: Decision<B, M>, next: LoopState)
    requires Step(o, colour, st, c) == Continue(d, next)
    ensures Run(o, colour, st, [c]) == Outcome([d], StreamEnded)
  {
    var chunks := [c];
    assert chunks[0] == c;
    RunContinue(o, colour, st, chunks, d, next);
    assert chunks[1..] == [];
    var tail := Run(o, colour, next, chunks[1..]);
    assert tail == Outcome([], StreamEnded);
    assert [d] + tail.decisions == [d];
  }

  /** When it is our turn and the first game-state event carries a single
      move (say "e2e4" with us playing black), that event is answered once, in
      the position the move leads to, with the operator's next line, whatever
      else the operator has typed. */
  lemma AnswersFirstMove<B, M>(o: Oracles<B, M>, side: string, text: string, v: Json.Value,
                               first: string, after: B, stdin: seq<string>, reply: M)
    requires IsSide(side)
    requires !AllWhitespace(text) && o.parse(text) == Some(v)
    requires Json.Get(v, "type") == Some(Json.Str("gameState"))
    requires Json.Get(v, "state").None? && Json.Get(v, "moves") == Some(Json.Str(first))
    requires first != [] && NoWhitespace(first)
    requires o.apply(o.start, first) == Some(after)
    requires o.san(after, Trim(LineAt(stdin, 0))) == Some(reply)
    ensures Run(o, side, LoopState(side, stdin), [Data(text)]) == Outcome([Acted(after, reply)], StreamEnded)
  {
    var st := LoopState(side, stdin);
    var rest := DropLines(stdin, 1);
    MovesOfTopLevel(v, first);
    ClassifyGameState(o.parse, text, v);
    ActOnFirstMove(o, v, first, after, stdin, reply);
    StepActs(o, side, st, Data(text), v, after, reply, rest);
    RunSingleContinue(o, side, st, Data(text), Acted(after, reply), LoopState(Toggle(side).value, rest));
  }

}
