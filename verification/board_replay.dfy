/** Rebuilding the position from a move list: a left fold of the legality
    oracle over the tokens, from the initial position. The chess rules (UCI
    parsing, legality, playing a move) are an external collaborator, given as
    `apply: (B, string) -> Option<B>` over an abstract position type `B`. */
module BoardReplay {
  import opened Wrappers

  /** Replays `tokens` from `start`. `Failure(i)` names the first token, by
      index, that does not parse or is not legal where it is played. */
  function Replay<B>(apply: (B, string) -> Option<B>, start: B, tokens: seq<string>): (r: Result<B, nat>)
    ensures r.Failure? ==> r.error < |tokens|
    decreases |tokens|
  {
    if |tokens| == 0 then Success(start)
    else
      match apply(start, tokens[0])
      case None => Failure(0)
      case Some(next) =>
        match Replay(apply, next, tokens[1..])
        case Success(b) => Success(b)
        case Failure(i) => Failure(i + 1)
  }

  /** Moves a failure index past `n` earlier tokens. */
  function Shift<B>(r: Result<B, nat>, n: nat): Result<B, nat> {
    match r
    case Success(b) => Success(b)
    case Failure(i) => Failure(i + n)
  }

  /** Replaying a concatenation replays the first part, then continues from
      its position; a failure in the first part is final. */
  lemma {:induction false} ReplayAppend<B>(apply: (B, string) -> Option<B>, start: B, xs: seq<string>, ys: seq<string>)
    ensures Replay(apply, start, xs + ys)
            == match Replay(apply, start, xs)
               case Failure(i) => Failure(i)
               case Success(b) => Shift(Replay(apply, b, ys), |xs|)
    decreases |xs|
  {
    if |xs| == 0 {
      assert xs + ys == ys;
      match Replay(apply, start, ys)
      case Success(_) =>
      case Failure(_) =>
    } else {
      assert (xs + ys)[0] == xs[0];
      assert (xs + ys)[1..] == xs[1..] + ys;
      match apply(start, xs[0])
      case None =>
      case Some(next) =>
        ReplayAppend(apply, next, xs[1..], ys);
    }
  }

  /** One more token: the fold's step. */
  lemma ReplaySnoc<B>(apply: (B, string) -> Option<B>, start: B, xs: seq<string>, t: string)
    ensures Replay(apply, start, xs + [t])
            == match Replay(apply, start, xs)
               case Failure(i) => Failure(i)
               case Success(b) =>
                 match apply(b, t)
                 case None => Failure(|xs|)
                 case Some(b') => Success(b')
  {
    ReplayAppend(apply, start, xs, [t]);
    assert [t][1..] == [];
  }

  /** An empty move list leaves the initial position. */
  lemma ReplayEmpty<B>(apply: (B, string) -> Option<B>, start: B)
    ensures Replay(apply, start, []) == Success(start)
  {
  }

  /** Replay fails at index `i` exactly when the tokens before `i` replay and
      token `i` is rejected in the position they reach. */
  lemma {:induction false} ReplayFailsAtFirstRejected<B>(apply: (B, string) -> Option<B>, start: B, tokens: seq<string>, i: nat)
    ensures Replay(apply, start, tokens) == Failure(i)
            <==> (&& i < |tokens|
                  && Replay(apply, start, tokens[..i]).Success?
                  && apply(Replay(apply, start, tokens[..i]).value, tokens[i]).None?)
  {
    if i < |tokens| {
      assert tokens == tokens[..i] + [tokens[i]] + tokens[i + 1..];
      ReplaySnoc(apply, start, tokens[..i], tokens[i]);
      ReplayAppend(apply, start, tokens[..i] + [tokens[i]], tokens[i + 1..]);
      if Replay(apply, start, tokens) == Failure(i) {
        if Replay(apply, start, tokens[..i]).Failure? {
          assert Replay(apply, start, tokens[..i]).error < i;
        }
      }
    }
  }

  /** The loop in the game stream as written: start from the initial position
      and play each token in turn, stopping at the first one that fails. */
  method ReplayMoves<B>(apply: (B, string) -> Option<B>, start: B, tokens: seq<string>) returns (r: Result<B, nat>)
    ensures r == Replay(apply, start, tokens)
  {
    var board := start;
    var i := 0;
    while i < |tokens|
      invariant 0 <= i <= |tokens|
      invariant Replay(apply, start, tokens[..i]) == Success(board)
      decreases |tokens| - i
    {
      ReplaySnoc(apply, start, tokens[..i], tokens[i]);
      assert tokens[..i + 1] == tokens[..i] + [tokens[i]];
      match apply(board, tokens[i])
      case None =>
        ReplayAppend(apply, start, tokens[..i + 1], tokens[i + 1..]);
        assert tokens[..i + 1] + tokens[i + 1..] == tokens;
        return Failure(i);
      case Some(next) =>
        board := next;
      i := i + 1;
    }
    assert tokens[..i] == tokens;
    r := Success(board);
  }
}
