/** The whitespace-delimited token stream that the equivalence-class (BFH) file
    is read from. A token is either an unsigned number or a word; extraction
    consumes tokens from the front. */
module Tokens {
  import opened Wrappers

  datatype Tok = N(n: nat) | S(s: string)

  /** A value read off the front of a stream together with what remains. */
  datatype Parsed<+T> = Parsed(value: T, rest: seq<Tok>)

  /** Extraction of one unsigned number (`stream >> n`). */
  function ReadNat(ts: seq<Tok>): (r: Option<Parsed<nat>>)
    ensures r.Some? <==> |ts| > 0 && ts[0].N?
    ensures r.Some? ==> ts == [N(r.value.value)] + r.value.rest
  {
    if |ts| > 0 && ts[0].N? then Some(Parsed(ts[0].n, ts[1..])) else None
  }

  /** Extraction of one word (`stream >> str`). */
  function ReadStr(ts: seq<Tok>): (r: Option<Parsed<string>>)
    ensures r.Some? <==> |ts| > 0 && ts[0].S?
    ensures r.Some? ==> ts == [S(r.value.value)] + r.value.rest
  {
    if |ts| > 0 && ts[0].S? then Some(Parsed(ts[0].s, ts[1..])) else None
  }

  /** The tokens that spell a list of numbers. */
  function Nats(xs: seq<nat>): seq<Tok>
  {
    if |xs| == 0 then [] else [N(xs[0])] + Nats(xs[1..])
  }

  /** The tokens that spell a list of words. */
  function Strs(xs: seq<string>): seq<Tok>
  {
    if |xs| == 0 then [] else [S(xs[0])] + Strs(xs[1..])
  }

  /** Reads `n` numbers in order; succeeds exactly on streams that start with
      the spelling of `n` numbers. */
  function ReadNats(ts: seq<Tok>, n: nat): Option<Parsed<seq<nat>>>
    decreases n
  {
    if n == 0 then Some(Parsed([], ts))
    else
      var x :- ReadNat(ts);
      var more :- ReadNats(x.rest, n - 1);
      Some(Parsed([x.value] + more.value, more.rest))
  }

  /** Reads `n` words in order; succeeds exactly on streams that start with
      the spelling of `n` words. */
  function ReadStrs(ts: seq<Tok>, n: nat): Option<Parsed<seq<string>>>
    decreases n
  {
    if n == 0 then Some(Parsed([], ts))
    else
      var x :- ReadStr(ts);
      var more :- ReadStrs(x.rest, n - 1);
      Some(Parsed([x.value] + more.value, more.rest))
  }

  /** The numbers read are spelled by the tokens consumed. */
  lemma {:induction false} ReadNatsSpells(ts: seq<Tok>, n: nat)
    ensures ReadNats(ts, n).Some? ==>
              && |ReadNats(ts, n).value.value| == n
              && ts == Nats(ReadNats(ts, n).value.value) + ReadNats(ts, n).value.rest
    decreases n
  {
    if n > 0 && ReadNats(ts, n).Some? {
      var x := ReadNat(ts).value;
      var more := ReadNats(x.rest, n - 1).value;
      ReadNatsSpells(x.rest, n - 1);
      var xs := [x.value] + more.value;
      assert ReadNats(ts, n).value == Parsed(xs, more.rest);
      assert xs[1..] == more.value;
      calc {
        Nats(xs) + more.rest;
        ([N(x.value)] + Nats(more.value)) + more.rest;
        [N(x.value)] + (Nats(more.value) + more.rest);
      }
    }
  }

  /** The words read are spelled by the tokens consumed. */
  lemma {:induction false} ReadStrsSpells(ts: seq<Tok>, n: nat)
    ensures ReadStrs(ts, n).Some? ==>
              && |ReadStrs(ts, n).value.value| == n
              && ts == Strs(ReadStrs(ts, n).value.value) + ReadStrs(ts, n).value.rest
    decreases n
  {
    if n > 0 && ReadStrs(ts, n).Some? {
      var x := ReadStr(ts).value;
      var more := ReadStrs(x.rest, n - 1).value;
      ReadStrsSpells(x.rest, n - 1);
      var xs := [x.value] + more.value;
      assert ReadStrs(ts, n).value == Parsed(xs, more.rest);
      assert xs[1..] == more.value;
      calc {
        Strs(xs) + more.rest;
        ([S(x.value)] + Strs(more.value)) + more.rest;
        [S(x.value)] + (Strs(more.value) + more.rest);
      }
    }
  }

  /** Reading back the spelling of a list of numbers yields that list and
      leaves whatever followed it. */
  lemma {:induction false} ReadNatsOfNats(xs: seq<nat>, rest: seq<Tok>)
    ensures ReadNats(Nats(xs) + rest, |xs|) == Some(Parsed(xs, rest))
    decreases |xs|
  {
    if |xs| > 0 {
      var ts := Nats(xs) + rest;
      assert ts == [N(xs[0])] + (Nats(xs[1..]) + rest);
      assert ReadNat(ts) == Some(Parsed(xs[0], Nats(xs[1..]) + rest));
      ReadNatsOfNats(xs[1..], rest);
      assert [xs[0]] + xs[1..] == xs;
    } else {
      assert Nats(xs) + rest == rest;
    }
  }

  /** Reading back the spelling of a list of words yields that list and
      leaves whatever followed it. */
  lemma {:induction false} ReadStrsOfStrs(xs: seq<string>, rest: seq<Tok>)
    ensures ReadStrs(Strs(xs) + rest, |xs|) == Some(Parsed(xs, rest))
    decreases |xs|
  {
    if |xs| > 0 {
      var ts := Strs(xs) + rest;
      assert ts == [S(xs[0])] + (Strs(xs[1..]) + rest);
      assert ReadStr(ts) == Some(Parsed(xs[0], Strs(xs[1..]) + rest));
      ReadStrsOfStrs(xs[1..], rest);
      assert [xs[0]] + xs[1..] == xs;
    } else {
      assert Strs(xs) + rest == rest;
    }
  }
}
