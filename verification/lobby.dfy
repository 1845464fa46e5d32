/** Getting a game id: `create_new_game` (send a challenge, then scan the reply
    stream for the first chunk that mentions "gameId"), the retry loop around
    it, `join_game`, and the same choice written inline in `main`. */
module Lobby {
  import opened Wrappers
  import opened Text
  import opened Channels
  import Json
  import opened Challenge

  /** Why setting up a game panics. */
  datatype Fault =
    | BadOptions(e: OptionsError)   // a refused answer in the challenge dialogue
    | UnreadableReply               // a reply chunk mentions "gameId" but is not JSON
    | GameIdNotString               // a listed game has a "gameId" that is not a string
    | UnreadableAccount             // the list of ongoing games is not JSON
    | NowPlayingNotArray            // its "nowPlaying" member is not an array

  /** The server's reply stream for the `k`-th challenge sent, as a function of
      the attempt number and the request. */
  type Server = (nat, Request) -> seq<Chunk>

  type Parser = string -> Option<Json.Value>

  /** A chunk at which the reply scan stops: a transport error, or text
      containing "gameId". */
  predicate EndsScan(c: Chunk) {
    c.Broken? || Contains(c.text, "gameId")
  }

  /** Index of the first chunk that ends the scan, or the length when none does. */
  function FirstStop(chunks: seq<Chunk>): (k: nat)
    ensures k <= |chunks|
    ensures forall j :: 0 <= j < k ==> !EndsScan(chunks[j])
    ensures k < |chunks| ==> EndsScan(chunks[k])
    decreases |chunks|
  {
    if |chunks| == 0 || EndsScan(chunks[0]) then 0 else 1 + FirstStop(chunks[1..])
  }

  /** The game id read from a chunk that mentions "gameId": the chunk must be
      JSON, and its "gameId" member is taken only when it is a string. */
  function GameIdOf(text: string, parse: Parser): Result<Option<string>, Fault> {
    match parse(text)
    case None => Failure(UnreadableReply)
    case Some(v) => Success(Json.AsStr(Json.Index(v, "gameId")))
  }

  /** The `while let Some(Ok(bytes))` loop of `create_new_game`. */
  function ScanForGameId(chunks: seq<Chunk>, parse: Parser): (r: Result<Option<string>, Fault>)
    ensures r.Failure? ==> r.error == UnreadableReply
    ensures r != Success(None) ==> FirstStop(chunks) < |chunks| && chunks[FirstStop(chunks)].Data?
    decreases |chunks|
  {
    if |chunks| == 0 || chunks[0].Broken? then Success(None)
    else if Contains(chunks[0].text, "gameId") then GameIdOf(chunks[0].text, parse)
    else ScanForGameId(chunks[1..], parse)
  }

  /** The scan's answer is decided by the first stopping chunk alone: nothing
      when the stream ends or fails first, otherwise that chunk's "gameId". */
  lemma {:induction false} ScanDecidedAtFirstStop(chunks: seq<Chunk>, parse: Parser)
    ensures var k := FirstStop(chunks);
            ScanForGameId(chunks, parse)
            == if k == |chunks| || chunks[k].Broken? then Success(None)
               else GameIdOf(chunks[k].text, parse)
    decreases |chunks|
  {
    if |chunks| > 0 && !EndsScan(chunks[0]) {
      ScanDecidedAtFirstStop(chunks[1..], parse);
    }
  }

  /** Chunks after the first stopping chunk are never inspected. */
  lemma {:induction false} ScanIgnoresLaterChunks(chunks: seq<Chunk>, tail: seq<Chunk>, parse: Parser)
    requires FirstStop(chunks) < |chunks|
    ensures ScanForGameId(chunks[..FirstStop(chunks) + 1] + tail, parse) == ScanForGameId(chunks, parse)
    decreases |chunks|
  {
    var k := FirstStop(chunks);
    if k > 0 {
      assert (chunks[..k + 1] + tail)[1..] == chunks[1..][..FirstStop(chunks[1..]) + 1] + tail;
      ScanIgnoresLaterChunks(chunks[1..], tail, parse);
    }
  }

  /** The loop of `create_new_game` as written: read chunks until the stream
      ends or fails, stop at the first one that mentions "gameId". */
  method AwaitGameId(chunks: seq<Chunk>, parse: Parser) returns (r: Result<Option<string>, Fault>)
    ensures r == ScanForGameId(chunks, parse)
  {
    var i := 0;
    var gameId: Option<string> := None;
    while i < |chunks| && chunks[i].Data?
      invariant 0 <= i <= |chunks|
      invariant ScanForGameId(chunks[i..], parse) == ScanForGameId(chunks, parse)
      decreases |chunks| - i
    {
      var s := chunks[i].text;
      if Contains(s, "gameId") {
        match parse(s)
        case None =>
          return Failure(UnreadableReply);
        case Some(v) =>
          return Success(Json.AsStr(Json.Index(v, "gameId")));
      }
      assert chunks[i..][1..] == chunks[i + 1..];
      i := i + 1;
    }
    r := Success(gameId);
  }

  /** `create_new_game`: the challenge dialogue, then the scan of the server's
      reply to that challenge. */
  function CreateNewGame(stdin: seq<string>, server: Server, parse: Parser, attempt: nat)
    : (r: Result<(Option<string>, seq<string>), Fault>)
    ensures var opts := GetChallengeOptions(stdin);
            r.Success? ==> && opts.Success?
                           && r.value.1 == DropLines(stdin, 4)
                           && ScanForGameId(server(attempt, opts.value.0), parse) == Success(r.value.0)
    ensures r.Failure? ==> r.error.BadOptions? || r.error == UnreadableReply
  {
    var opts := GetChallengeOptions(stdin);
    if opts.Failure? then Failure(BadOptions(opts.error))
    else
      var scan := ScanForGameId(server(attempt, opts.value.0), parse);
      if scan.Failure? then Failure(scan.error) else Success((scan.value, opts.value.1))
  }

  /** Both directions of `create_new_game`: a refused answer fails with that
      answer's error; a complete dialogue sends its request, and the scan of
      the reply decides the outcome, with four lines consumed. */
  lemma CreateNewGameOutcome(stdin: seq<string>, server: Server, parse: Parser, attempt: nat)
    ensures var opts := GetChallengeOptions(stdin);
            opts.Failure? ==> CreateNewGame(stdin, server, parse, attempt) == Failure(BadOptions(opts.error))
    ensures var opts := GetChallengeOptions(stdin);
            opts.Success? ==>
              var scan := ScanForGameId(server(attempt, opts.value.0), parse);
              var r := CreateNewGame(stdin, server, parse, attempt);
              && (scan.Failure? ==> r == Failure(UnreadableReply))
              && (scan.Success? ==> r == Success((scan.value, DropLines(stdin, 4))))
  {
  }

  lemma NormalizeEmpty()
    ensures Normalize("") == ""
  {
  }

  /** The `loop` around `create_new_game`: return the first id obtained; after a
      failed attempt ask "try again?" and give up unless the answer is "y". */
  function CreateWithRetry(stdin: seq<string>, server: Server, parse: Parser, attempt: nat)
    : (r: Result<(Option<string>, seq<string>), Fault>)
    ensures r.Failure? ==> r.error.BadOptions? || r.error == UnreadableReply
    decreases |stdin|
  {
    match CreateNewGame(stdin, server, parse, attempt)
    case Failure(f) => Failure(f)
    case Success((Some(id), rest)) => Success((Some(id), rest))
    case Success((None, rest)) =>
      var (answer, rest') := ReadLine(rest);
      if Normalize(answer) != "y" then Success((None, rest'))
      else
        NormalizeEmpty();
        CreateWithRetry(rest', server, parse, attempt + 1)
  }

  /** One attempt of the retry loop, as a function of the remaining input and
      the attempt number. */
  type Attempt = (seq<string>, nat) -> Result<(Option<string>, seq<string>), Fault>

  function CreateAttempt(server: Server, parse: Parser): Attempt {
    (input: seq<string>, k: nat) => CreateNewGame(input, server, parse, k)
  }

  /** Attempt `attempt + j` reads its dialogue from line `5 * j` on: each earlier
      attempt took four answers and one "try again?". */
  function AttemptInput(stdin: seq<string>, j: nat): seq<string> {
    DropLines(stdin, 5 * j)
  }

  /** Attempt `attempt + j` obtained no id and was answered "y" to "try again?". */
  ghost predicate RetriedAfter(stdin: seq<string>, create: Attempt, attempt: nat, j: nat) {
    var tried := create(AttemptInput(stdin, j), attempt + j);
    tried.Success? && tried.value.0.None? && Normalize(LineAt(stdin, 5 * j + 4)) == "y"
  }

  /** Every attempt before `attempt + j` obtained no id and was retried. */
  ghost predicate RetriedBefore(stdin: seq<string>, create: Attempt, attempt: nat, j: nat) {
    forall i: nat :: i < j ==> RetriedAfter(stdin, create, attempt, i)
  }

  /** Attempt `attempt + j` obtained `id`. */
  ghost predicate GotIdOn(stdin: seq<string>, create: Attempt, attempt: nat, j: nat, id: string) {
    var tried := create(AttemptInput(stdin, j), attempt + j);
    tried.Success? && tried.value.0 == Some(id)
  }

  /** The dialogue of attempt `attempt + j` succeeded, and the scan of the
      server's reply to its request gave `id`. */
  ghost predicate ScannedOnAttempt(stdin: seq<string>, server: Server, parse: Parser, attempt: nat, j: nat, id: string) {
    var opts := GetChallengeOptions(AttemptInput(stdin, j));
    opts.Success? && ScanForGameId(server(attempt + j, opts.value.0), parse) == Success(Some(id))
  }

  /** An id returned by the retry loop is the scan result of the reply to some
      attempt's own request, and every earlier attempt got no id and was
      answered "y": the loop returns the first id obtained and never invents one. */
  lemma RetryReturnsScannedId(stdin: seq<string>, server: Server, parse: Parser, attempt: nat)
    requires CreateWithRetry(stdin, server, parse, attempt).Success?
    requires CreateWithRetry(stdin, server, parse, attempt).value.0.Some?
    ensures var id := CreateWithRetry(stdin, server, parse, attempt).value.0.value;
            exists j: nat :: && ScannedOnAttempt(stdin, server, parse, attempt, j, id)
                             && RetriedBefore(stdin, CreateAttempt(server, parse), attempt, j)
  {
    var id := CreateWithRetry(stdin, server, parse, attempt).value.0.value;
    RetryFindsId(stdin, server, parse, attempt);
    var j: nat :| && GotIdOn(stdin, CreateAttempt(server, parse), attempt, j, id)
                  && RetriedBefore(stdin, CreateAttempt(server, parse), attempt, j);
    GotIdScanned(stdin, server, parse, attempt, j, id);
  }

  /** An attempt of `create_new_game` that obtained an id did so by scanning the
      reply to its own request. */
  lemma GotIdScanned(stdin: seq<string>, server: Server, parse: Parser, attempt: nat, j: nat, id: string)
    requires GotIdOn(stdin, CreateAttempt(server, parse), attempt, j, id)
    ensures ScannedOnAttempt(stdin, server, parse, attempt, j, id)
  {
    var tried := CreateNewGame(AttemptInput(stdin, j), server, parse, attempt + j);
    assert tried.Success? && tried.value.0 == Some(id);
  }

  lemma {:induction false} RetryFindsId(stdin: seq<string>, server: Server, parse: Parser, attempt: nat)
    requires CreateWithRetry(stdin, server, parse, attempt).Success?
    requires CreateWithRetry(stdin, server, parse, attempt).value.0.Some?
    ensures var id := CreateWithRetry(stdin, server, parse, attempt).value.0.value;
            exists j: nat :: && GotIdOn(stdin, CreateAttempt(server, parse), attempt, j, id)
                             && RetriedBefore(stdin, CreateAttempt(server, parse), attempt, j)
    decreases |stdin|
  {
    var create := CreateAttempt(server, parse);
    var id := CreateWithRetry(stdin, server, parse, attempt).value.0.value;
    var first := CreateNewGame(stdin, server, parse, attempt);
    assert AttemptInput(stdin, 0) == stdin;
    if first.Success? && first.value.0.Some? {
      assert GotIdOn(stdin, create, attempt, 0, id);
    } else {
      var rest' := DropLines(stdin, 5);
      RetryStops(stdin, server, parse, attempt);
      DropLinesTwice(stdin, 4, 1);
      DropLinesTwice(stdin, 4, 0);
      assert first.value.1 == DropLines(stdin, 4);
      assert Normalize(LineAt(stdin, 4)) == "y";
      assert RetriedAfter(stdin, create, attempt, 0);
      assert CreateWithRetry(stdin, server, parse, attempt) == CreateWithRetry(rest', server, parse, attempt + 1);
      RetryFindsId(rest', server, parse, attempt + 1);
      var j: nat :| && GotIdOn(rest', create, attempt + 1, j, id)
                    && RetriedBefore(rest', create, attempt + 1, j);
      ShiftAttempts(stdin, create, attempt, j, id);
    }
  }

  /** Moving the attempt count one step back and the input five lines back. */
  lemma ShiftAttempts(stdin: seq<string>, create: Attempt, attempt: nat, j: nat, id: string)
    requires RetriedAfter(stdin, create, attempt, 0)
    requires GotIdOn(DropLines(stdin, 5), create, attempt + 1, j, id)
    requires RetriedBefore(DropLines(stdin, 5), create, attempt + 1, j)
    ensures GotIdOn(stdin, create, attempt, j + 1, id)
    ensures RetriedBefore(stdin, create, attempt, j + 1)
  {
    ShiftGotId(stdin, create, attempt, j, id);
    ShiftRetriedBefore(stdin, create, attempt, j);
  }

  lemma ShiftRetriedBefore(stdin: seq<string>, create: Attempt, attempt: nat, j: nat)
    requires RetriedAfter(stdin, create, attempt, 0)
    requires RetriedBefore(DropLines(stdin, 5), create, attempt + 1, j)
    ensures RetriedBefore(stdin, create, attempt, j + 1)
  {
    forall i: nat | i < j + 1
      ensures RetriedAfter(stdin, create, attempt, i)
    {
      if i > 0 {
        var k: nat := i - 1;
        assert k < j;
        assert RetriedAfter(DropLines(stdin, 5), create, attempt + 1, k);
        ShiftRetried(stdin, create, attempt, k);
        assert k + 1 == i;
      }
    }
  }

  lemma ShiftGotId(stdin: seq<string>, create: Attempt, attempt: nat, k: nat, id: string)
    requires GotIdOn(DropLines(stdin, 5), create, attempt + 1, k, id)
    ensures GotIdOn(stdin, create, attempt, k + 1, id)
  {
    ShiftInput(stdin, k);
  }

  lemma ShiftRetried(stdin: seq<string>, create: Attempt, attempt: nat, k: nat)
    requires RetriedAfter(DropLines(stdin, 5), create, attempt + 1, k)
    ensures RetriedAfter(stdin, create, attempt, k + 1)
  {
    ShiftInput(stdin, k);
  }

  lemma ShiftInput(stdin: seq<string>, k: nat)
    ensures AttemptInput(DropLines(stdin, 5), k) == AttemptInput(stdin, k + 1)
    ensures LineAt(DropLines(stdin, 5), 5 * k + 4) == LineAt(stdin, 5 * (k + 1) + 4)
  {
    DropLinesTwice(stdin, 5, 5 * k);
    DropLinesTwice(stdin, 5, 5 * k + 4);
  }

  /** The first attempt that yields an id ends the loop with it; a failed
      attempt followed by any answer other than "y" ends it with nothing. */
  lemma RetryStops(stdin: seq<string>, server: Server, parse: Parser, attempt: nat)
    ensures var first := CreateNewGame(stdin, server, parse, attempt);
            first.Success? && first.value.0.Some? ==>
              CreateWithRetry(stdin, server, parse, attempt) == first
    ensures var first := CreateNewGame(stdin, server, parse, attempt);
            first.Success? && first.value.0.None? && Normalize(LineAt(first.value.1, 0)) != "y" ==>
              CreateWithRetry(stdin, server, parse, attempt) == Success((None, DropLines(first.value.1, 1)))
    ensures var first := CreateNewGame(stdin, server, parse, attempt);
            first.Success? && first.value.0.None? && Normalize(LineAt(first.value.1, 0)) == "y" ==>
              CreateWithRetry(stdin, server, parse, attempt)
              == CreateWithRetry(DropLines(first.value.1, 1), server, parse, attempt + 1)
    ensures var first := CreateNewGame(stdin, server, parse, attempt);
            first.Failure? ==> CreateWithRetry(stdin, server, parse, attempt) == Failure(first.error)
  {
    var first := CreateNewGame(stdin, server, parse, attempt);
    if first.Success? {
      ReadLineAt(first.value.1, 0);
    }
  }

  /** The "j" branch of `join_game`: nothing when there is no ongoing game;
      otherwise the first game's "gameId" when it has one, which must then be
      a string. */
  function JoinExisting(nGames: nat, defaultGame: Json.Value): (r: Result<Option<string>, Fault>)
    ensures nGames == 0 ==> r == Success(None)
    ensures nGames > 0 ==>
              && (r.Failure? <==> Json.Get(defaultGame, "gameId").Some? && !Json.Get(defaultGame, "gameId").value.Str?)
              && (r.Success? && r.value.Some? <==> Json.Get(defaultGame, "gameId").Some? && Json.Get(defaultGame, "gameId").value.Str?)
              && (r.Success? && r.value.Some? ==> Json.Get(defaultGame, "gameId") == Some(Json.Str(r.value.value)))
  {
    if nGames == 0 then Success(None)
    else
      match Json.Get(defaultGame, "gameId")
      case None => Success(None)
      case Some(g) =>
        match Json.AsStr(g)
        case None => Failure(GameIdNotString)
        case Some(id) => Success(Some(id))
  }

  /** Pairs a game-id decision with what is left of standard input. */
  function WithRest(r: Result<Option<string>, Fault>, rest: seq<string>): Result<(Option<string>, seq<string>), Fault> {
    match r
    case Failure(f) => Failure(f)
    case Success(id) => Success((id, rest))
  }

  /** `join_game`: "c" creates a game (with retries); "j" joins an ongoing game;
      any other answer gives nothing. The answer is trimmed and lowered first. */
  function JoinGame(stdin: seq<string>, nGames: nat, defaultGame: Json.Value, server: Server, parse: Parser)
    : (r: Result<(Option<string>, seq<string>), Fault>)
    ensures Normalize(LineAt(stdin, 0)) !in {"c", "j"} ==> r == Success((None, DropLines(stdin, 1)))
    ensures Normalize(LineAt(stdin, 0)) == "j" ==> r == WithRest(JoinExisting(nGames, defaultGame), DropLines(stdin, 1))
    ensures Normalize(LineAt(stdin, 0)) == "c" ==> r == CreateWithRetry(DropLines(stdin, 1), server, parse, 0)
  {
    var choice := Normalize(LineAt(stdin, 0));
    var rest := DropLines(stdin, 1);
    if choice == "c" then CreateWithRetry(rest, server, parse, 0)
    else if choice == "j" then WithRest(JoinExisting(nGames, defaultGame), rest)
    else Success((None, rest))
  }

  /** The choice in `main`, written inline there: read the list of ongoing
      games, count the "nowPlaying" entries, ask create-or-join, and on "j"
      take the first entry's "gameId". */
  function ChooseGame(accountBody: string, stdin: seq<string>, server: Server, parse: Parser)
    : (r: Result<(Option<string>, seq<string>), Fault>)
    ensures r == Failure(UnreadableAccount) <==> parse(accountBody).None?
    ensures r == Failure(NowPlayingNotArray) <==>
              parse(accountBody).Some? && !Json.Index(parse(accountBody).value, "nowPlaying").Array?
  {
    match parse(accountBody)
    case None => Failure(UnreadableAccount)
    case Some(v) =>
      var currentGames := Json.Index(v, "nowPlaying");
      match Json.AsArray(currentGames)
      case None => Failure(NowPlayingNotArray)
      case Some(games) =>
        var choice := Normalize(LineAt(stdin, 0));
        var rest := DropLines(stdin, 1);
        if choice == "c" then CreateWithRetry(rest, server, parse, 0)
        else if choice == "j" then
          if |games| == 0 then Success((None, rest))
          else
            match Json.Get(Json.At(currentGames, 0), "gameId")
            case None => Success((None, rest))
            case Some(g) =>
              match Json.AsStr(g)
              case None => Failure(GameIdNotString)
              case Some(id) => Success((Some(id), rest))
        else Success((None, rest))
  }

  /** The copy in `main` behaves as `join_game` called with the number of
      ongoing games and the first of them, once the list has been read. */
  lemma ChooseGameIsJoinGame(accountBody: string, stdin: seq<string>, server: Server, parse: Parser)
    ensures var v := parse(accountBody);
            && (v.None? ==> ChooseGame(accountBody, stdin, server, parse) == Failure(UnreadableAccount))
            && (v.Some? && !Json.Index(v.value, "nowPlaying").Array? ==>
                  ChooseGame(accountBody, stdin, server, parse) == Failure(NowPlayingNotArray))
            && (v.Some? && Json.Index(v.value, "nowPlaying").Array? ==>
                  var games := Json.Index(v.value, "nowPlaying").items;
                  ChooseGame(accountBody, stdin, server, parse)
                  == JoinGame(stdin, |games|, if |games| > 0 then games[0] else Json.Null, server, parse))
  {
    var v := parse(accountBody);
    if v.Some? && Json.Index(v.value, "nowPlaying").Array? {
      var current := Json.Index(v.value, "nowPlaying");
      var games := current.items;
      var first := if |games| > 0 then games[0] else Json.Null;
      var choice := Normalize(LineAt(stdin, 0));
      var rest := DropLines(stdin, 1);
      var chosen := ChooseGame(accountBody, stdin, server, parse);
      if choice == "c" {
        assert chosen == CreateWithRetry(rest, server, parse, 0);
      } else if choice == "j" {
        if |games| > 0 {
          assert Json.At(current, 0) == first;
        }
        assert chosen == WithRest(JoinExisting(|games|, first), rest);
      } else {
        assert chosen == Success((None, rest));
      }
    }
  }

  /** The create-or-join answer may be padded and in any case: a line whose
      trimmed core lower-cases to "j" (such as " J ") joins. */
  lemma JoinAnswerTolerant(p: string, x: string, q: string, rest: seq<string>, nGames: nat,
                           defaultGame: Json.Value, server: Server, parse: Parser)
    requires AllWhitespace(p) && AllWhitespace(q) && Trimmed(x) && ToLower(x) == "j"
    ensures JoinGame([p + x + q] + rest, nGames, defaultGame, server, parse)
            == WithRest(JoinExisting(nGames, defaultGame), rest)
  {
    var stdin := [p + x + q] + rest;
    NormalizePadded(p, x, q);
    assert LineAt(stdin, 0) == p + x + q;
    assert stdin[1..] == rest;
    assert DropLines(stdin, 1) == rest;
  }
}
