/** The counted loops of the reader, in general form: a loop that runs a
    one-item reader `n` times while threading a state, and the list decoder it
    is measured against. The one theorem here says that when one item reads as
    it decodes, the whole loop reads as the decoded list. */
module Loops {
  import opened Wrappers
  import opened Tokens

  /** Runs the one-item reader `n` times; the first failure ends the loop. */
  function Repeat<S>(ts: seq<Tok>, n: nat, one: (seq<Tok>, S) -> Option<Parsed<S>>, s: S): Option<Parsed<S>>
    decreases n
  {
    if n == 0 then Some(Parsed(s, ts))
    else
      match one(ts, s)
      case None => None
      case Some(p) => Repeat(p.rest, n - 1, one, p.value)
  }

  /** Decodes `n` items in order. */
  function DecodeMany<T>(ts: seq<Tok>, n: nat, one: seq<Tok> -> Option<Parsed<T>>): Option<Parsed<seq<T>>>
    decreases n
  {
    if n == 0 then Some(Parsed([], ts))
    else
      match one(ts)
      case None => None
      case Some(p) =>
        match DecodeMany(p.rest, n - 1, one)
        case None => None
        case Some(q) => Some(Parsed([p.value] + q.value, q.rest))
  }

  /** Every item passes the check. */
  predicate AllOk<T>(xs: seq<T>, ok: T -> bool)
  {
    forall i :: 0 <= i < |xs| ==> ok(xs[i])
  }

  /** Threads a state through the items in order. */
  function Thread<S, T>(xs: seq<T>, next: (S, T) -> S, s: S): S
    decreases |xs|
  {
    if |xs| == 0 then s else Thread(xs[1..], next, next(s, xs[0]))
  }

  /** What a loop owes for a decoded list: the state after every item when
      every item passes the check, nothing otherwise. */
  function Outcome<S, T>(d: Option<Parsed<seq<T>>>, ok: T -> bool, next: (S, T) -> S, s: S): Option<Parsed<S>>
  {
    match d
    case None => None
    case Some(p) => if AllOk(p.value, ok) then Some(Parsed(Thread(p.value, next, s), p.rest)) else None
  }

  /** One item reads exactly as it decodes: nothing when it does not decode
      or fails the check, the next state otherwise. */
  ghost predicate ReadsAs<S(!new), T>(one: (seq<Tok>, S) -> Option<Parsed<S>>, dec: seq<Tok> -> Option<Parsed<T>>,
                                ok: T -> bool, next: (S, T) -> S)
  {
    forall ts, s :: one(ts, s) == match dec(ts)
                                  case None => None
                                  case Some(p) => if ok(p.value) then Some(Parsed(next(s, p.value), p.rest)) else None
  }

  lemma AllOkCons<T>(x: T, xs: seq<T>, ok: T -> bool)
    ensures AllOk([x] + xs, ok) <==> ok(x) && AllOk(xs, ok)
  {
    var all := [x] + xs;
    assert all[0] == x;
    if ok(x) && AllOk(xs, ok) {
      forall i | 0 <= i < |all|
        ensures ok(all[i])
      {
        if i > 0 {
          assert all[i] == xs[i - 1];
        }
      }
    }
    if AllOk(all, ok) {
      forall i | 0 <= i < |xs|
        ensures ok(xs[i])
      {
        assert all[i + 1] == xs[i];
      }
    }
  }

  /** The loop reads exactly as the list decodes, when one item does. */
  lemma {:induction false} RepeatAgrees<S(!new), T>(ts: seq<Tok>, n: nat, one: (seq<Tok>, S) -> Option<Parsed<S>>,
                                              dec: seq<Tok> -> Option<Parsed<T>>, ok: T -> bool,
                                              next: (S, T) -> S, s: S)
    requires ReadsAs(one, dec, ok, next)
    ensures Repeat(ts, n, one, s) == Outcome(DecodeMany(ts, n, dec), ok, next, s)
    decreases n
  {
    if n > 0 {
      match dec(ts)
      case None =>
      case Some(p) =>
        var s' := next(s, p.value);
        RepeatAgrees(p.rest, n - 1, one, dec, ok, next, s');
        match DecodeMany(p.rest, n - 1, dec)
        case None =>
        case Some(q) =>
          var xs := [p.value] + q.value;
          AllOkCons(p.value, q.value, ok);
          assert xs[1..] == q.value;
          assert Thread(xs, next, s) == Thread(q.value, next, s');
    }
  }
}
