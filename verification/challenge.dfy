/** The questions the program asks before sending a challenge: the colour name,
    the rated answer, the "min+inc" time control, and the four-line dialogue of
    `get_challenge_options_from_user` that assembles the challenge. Both source
    files hold identical copies of this logic. */
module Challenge {
  import opened Wrappers
  import opened Text
  import opened Channels

  datatype ChallengeColour = White | Black | Random

  /** The serialised name of each colour. */
  function Name(c: ChallengeColour): string {
    match c
    case White => "white"
    case Black => "black"
    case Random => "random"
  }

  /** `ChallengeColour::from_str`: the three names, compared verbatim; `None`
      stands for `Err(())`. */
  function FromStr(s: string): (r: Option<ChallengeColour>)
    ensures r.Some? ==> Name(r.value) == s
    ensures r.None? <==> forall c: ChallengeColour :: Name(c) != s
  {
    if s == "white" then Some(White)
    else if s == "black" then Some(Black)
    else if s == "random" then Some(Random)
    else None
  }

  /** Every colour is read back from its own name. */
  lemma FromStrRoundTrip(c: ChallengeColour)
    ensures FromStr(Name(c)) == Some(c)
  {
  }

  /** The rated answer: "y" is rated, "n" is casual, after trimming and lowering;
      anything else is refused (the source panics). */
  function ParseRated(answer: string): (r: Option<bool>)
    ensures r == Some(true) <==> Normalize(answer) == "y"
    ensures r == Some(false) <==> Normalize(answer) == "n"
    ensures r.None? <==> Normalize(answer) !in {"y", "n"}
  {
    var a := Normalize(answer);
    if a == "y" then Some(true) else if a == "n" then Some(false) else None
  }

  /** The answer may be padded with whitespace and written in any case: only
      its lower-cased core counts ("Y" and " y " are both rated). */
  lemma RatedAnswerTolerant(p: string, x: string, q: string)
    requires AllWhitespace(p) && AllWhitespace(q) && Trimmed(x)
    ensures ParseRated(p + x + q) == Some(true) <==> ToLower(x) == "y"
    ensures ParseRated(p + x + q) == Some(false) <==> ToLower(x) == "n"
  {
    NormalizePadded(p, x, q);
  }

  /** Clock settings of a challenge, in seconds. */
  datatype TimeControl = TimeControl(limit: U32, increment: U32)

  /** Why the dialogue fails; each is a panic in the source. */
  datatype OptionsError =
    | RatedNotYesNo
    | UnknownColour
    | BadClockLimit
    | ClockLimitOverflow
    | BadIncrement

  /** The "min+inc" time control: the first '+' field in minutes, times 60 in
      `u32` arithmetic (which panics on overflow), and the last '+' field as the
      increment. Without a '+' both come from the same field. */
  function ParseTimeControl(tc: string): (r: Result<TimeControl, OptionsError>)
    ensures r.Success? ==> r.value.limit % 60 == 0
    ensures r.Failure? ==> r.error in {BadClockLimit, ClockLimitOverflow, BadIncrement}
  {
    var fields := SplitOn(tc, '+');
    match ParseU32(fields[0])
    case None => Failure(BadClockLimit)
    case Some(minutes) =>
      var seconds := minutes * 60;
      if seconds > U32_MAX then Failure(ClockLimitOverflow)
      else
        match ParseU32(Last(fields))
        case None => Failure(BadIncrement)
        case Some(increment) =>
          WholeMinutes(minutes);
          Success(TimeControl(seconds, increment))
  }

  lemma WholeMinutes(m: nat)
    ensures m * 60 >= 0 && (m * 60) % 60 == 0
  {
  }

  /** For any '+'-separated fields: the limit comes from the first field and the
      increment from the last one; middle fields are never read. */
  lemma TimeControlFields(parts: seq<string>)
    requires |parts| >= 1
    requires forall i :: 0 <= i < |parts| ==> '+' !in parts[i]
    ensures var r := ParseTimeControl(JoinWith(parts, '+'));
            r.Success? <==> (&& ParseU32(parts[0]).Some?
                             && ParseU32(parts[0]).value * 60 <= U32_MAX
                             && ParseU32(Last(parts)).Some?)
    ensures var r := ParseTimeControl(JoinWith(parts, '+'));
            r.Success? ==> (&& r.value.limit == ParseU32(parts[0]).value * 60
                            && r.value.increment == ParseU32(Last(parts)).value)
  {
    SplitJoinWith(parts, '+');
  }

  /** "m+i" with rendered numbers gives a limit of `m*60` seconds and increment `i`. */
  lemma TimeControlRoundTrip(m: U32, i: U32)
    requires m * 60 <= U32_MAX
    ensures ParseTimeControl(DecimalString(m) + "+" + DecimalString(i))
            == Success(TimeControl(m * 60, i))
  {
    ParseU32RoundTrip(m);
    ParseU32RoundTrip(i);
    TimeControlFields([DecimalString(m), DecimalString(i)]);
  }

  /** With no '+' the single field is both the minutes and the increment. */
  lemma TimeControlSingleField(m: U32)
    requires m * 60 <= U32_MAX
    ensures ParseTimeControl(DecimalString(m)) == Success(TimeControl(m * 60, m))
  {
    ParseU32RoundTrip(m);
    TimeControlFields([DecimalString(m)]);
  }

  /** A minute count whose seconds do not fit in `u32` is refused, whatever follows. */
  lemma TimeControlOverflow(m: U32, rest: string)
    requires m * 60 > U32_MAX
    ensures ParseTimeControl(DecimalString(m) + "+" + rest) == Failure(ClockLimitOverflow)
  {
    ParseU32RoundTrip(m);
    SplitOnFirstPiece(DecimalString(m), rest, '+');
  }

  /** The challenge body sent to the server. */
  datatype ChallengeSchema = ChallengeSchema(
    rated: bool,
    clockLimit: U32,
    clockIncrement: U32,
    color: ChallengeColour,
    variant: string,
    fen: Option<string>,
    keepAliveStream: bool)

  /** Who to challenge, and with what settings. */
  datatype Request = Request(username: string, schema: ChallengeSchema)

  /** `get_challenge_options_from_user`: reads the username, the time control,
      the rated answer and the colour, one line each, and checks them in the
      order rated, colour, clock limit, increment. */
  function GetChallengeOptions(stdin: seq<string>): (r: Result<(Request, seq<string>), OptionsError>)
    ensures r.Success? ==> r.value.1 == DropLines(stdin, 4)
    ensures r.Success? ==>
      var req := r.value.0;
      && req.username == Normalize(LineAt(stdin, 0))
      && req.schema.rated == (Normalize(LineAt(stdin, 2)) == "y")
      && Name(req.schema.color) == Normalize(LineAt(stdin, 3))
      && ParseTimeControl(Normalize(LineAt(stdin, 1)))
         == Success(TimeControl(req.schema.clockLimit, req.schema.clockIncrement))
      && req.schema.variant == "standard"
      && req.schema.fen == None
      && req.schema.keepAliveStream
  {
    var user := LineAt(stdin, 0);
    var timeControl := LineAt(stdin, 1);
    var ratedAnswer := LineAt(stdin, 2);
    var colourAnswer := LineAt(stdin, 3);
    match ParseRated(ratedAnswer)
    case None => Failure(RatedNotYesNo)
    case Some(rated) =>
      match FromStr(Normalize(colourAnswer))
      case None => Failure(UnknownColour)
      case Some(colour) =>
        match ParseTimeControl(Normalize(timeControl))
        case Failure(e) => Failure(e)
        case Success(t) =>
          var schema := ChallengeSchema(rated, t.limit, t.increment, colour, "standard", None, true);
          Success((Request(Normalize(user), schema), DropLines(stdin, 4)))
  }

  /** The dialogue succeeds exactly when all three checked answers are
      accepted. It fails on the rated answer exactly when that answer is
      neither "y" nor "n"; on the colour exactly when the rated answer was fine
      and the colour is none of the three names; and otherwise on a bad clock,
      with the time-control parser's own error. */
  lemma OptionsFailures(stdin: seq<string>)
    ensures var rated := ParseRated(LineAt(stdin, 2));
            var colour := FromStr(Normalize(LineAt(stdin, 3)));
            var clock := ParseTimeControl(Normalize(LineAt(stdin, 1)));
            GetChallengeOptions(stdin).Success? <==> rated.Some? && colour.Some? && clock.Success?
    ensures GetChallengeOptions(stdin) == Failure(RatedNotYesNo)
            <==> ParseRated(LineAt(stdin, 2)).None?
    ensures GetChallengeOptions(stdin) == Failure(UnknownColour)
            <==> ParseRated(LineAt(stdin, 2)).Some? && FromStr(Normalize(LineAt(stdin, 3))).None?
    ensures var clock := ParseTimeControl(Normalize(LineAt(stdin, 1)));
            ParseRated(LineAt(stdin, 2)).Some? && FromStr(Normalize(LineAt(stdin, 3))).Some? && clock.Failure? ==>
              GetChallengeOptions(stdin) == Failure(clock.error)
  {
    var rated := ParseRated(LineAt(stdin, 2));
    var colour := FromStr(Normalize(LineAt(stdin, 3)));
    if rated.Some? && colour.Some? {
      var clock := ParseTimeControl(Normalize(LineAt(stdin, 1)));
      assert clock.Failure? ==> clock.error != RatedNotYesNo && clock.error != UnknownColour;
      assert GetChallengeOptions(stdin) != Failure(RatedNotYesNo);
      assert GetChallengeOptions(stdin) != Failure(UnknownColour);
    }
  }
}
