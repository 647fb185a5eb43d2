/**
  * Incremental parsing of a byte stream that arrives in arbitrary pieces: the theory shared by the
  * UTF-8 decoder and the framed input stream.
  *
  * A parser looks at the front of its buffer. It takes a complete item, waits for more input, or
  * halts on input it can never accept.
  */
module Incremental {

  datatype Step<+O> = Take(n: nat, out: O) | Wait | Halt

  datatype Parsed<+B, +O> = Parsed(outs: seq<O>, rest: seq<B>, halted: bool)

  type Parser<!B, +O> = seq<B> -> Step<O>

  /** An item has at least one byte and lies inside the buffer. */
  ghost predicate Progresses<B(!new), O(!new)>(p: Parser<B, O>) {
    forall s :: p(s).Take? ==> 0 < p(s).n <= |s|
  }

  /** A decision is never revised by input that arrives later. */
  ghost predicate Stable<B(!new), O(!new)>(p: Parser<B, O>) {
    forall a, b :: !p(a).Wait? ==> p(a + b) == p(a)
  }

  ghost predicate WellBehaved<B(!new), O(!new)>(p: Parser<B, O>) {
    Progresses(p) && Stable(p)
  }

  /** Take items off the front of `s` until the parser waits or halts. */
  function Parse<B, O>(p: Parser<B, O>, s: seq<B>): Parsed<B, O>
    decreases |s|
  {
    match p(s)
    case Take(n, out) =>
      if 0 < n <= |s| then
        var r := Parse(p, s[n..]);
        Parsed([out] + r.outs, r.rest, r.halted)
      else Parsed([], s, true)
    case Wait => Parsed([], s, false)
    case Halt => Parsed([], s, true)
  }

  /** Input arriving in chunks: each is appended to what was left over, until the parser halts. */
  function FeedAll<B, O>(p: Parser<B, O>, carry: seq<B>, chunks: seq<seq<B>>): Parsed<B, O>
    decreases |chunks|
  {
    if chunks == [] then Parsed([], carry, false)
    else
      var x := Parse(p, carry + chunks[0]);
      if x.halted then x
      else
        var y := FeedAll(p, x.rest, chunks[1..]);
        Parsed(x.outs + y.outs, y.rest, y.halted)
  }

  function Flatten<T>(chunks: seq<seq<T>>): seq<T> {
    if chunks == [] then [] else chunks[0] + Flatten(chunks[1..])
  }

  lemma {:induction false} FlattenConcat<T>(a: seq<seq<T>>, b: seq<seq<T>>)
    ensures Flatten(a + b) == Flatten(a) + Flatten(b)
    decreases |a|
  {
    if a == [] {
      assert a + b == b;
    } else {
      assert (a + b)[1..] == a[1..] + b;
      FlattenConcat(a[1..], b);
    }
  }

  lemma Assoc<T>(a: seq<T>, b: seq<T>, c: seq<T>)
    ensures a + (b + c) == (a + b) + c
  {
  }

  lemma Unfold<B(!new), O(!new)>(p: Parser<B, O>, s: seq<B>)
    requires WellBehaved(p) && p(s).Take?
    ensures 0 < p(s).n <= |s|
    ensures var r := Parse(p, s[p(s).n..]);
            Parse(p, s) == Parsed([p(s).out] + r.outs, r.rest, r.halted)
  {
  }

  lemma KeepsDecision<B(!new), O(!new)>(p: Parser<B, O>, a: seq<B>, b: seq<B>)
    requires WellBehaved(p) && !p(a).Wait?
    ensures p(a + b) == p(a)
  {
  }

  /** Parsing a concatenation is parsing its first part, then what is left of it with the second. */
  lemma {:induction false} ParseConcat<B(!new), O(!new)>(p: Parser<B, O>, a: seq<B>, b: seq<B>)
    requires WellBehaved(p)
    ensures var x := Parse(p, a);
            var z := Parse(p, a + b);
            if x.halted then z == Parsed(x.outs, x.rest + b, true)
            else
              var y := Parse(p, x.rest + b);
              z == Parsed(x.outs + y.outs, y.rest, y.halted)
    decreases |a|
  {
    var x := Parse(p, a);
    match p(a) {
      case Take(n, out) =>
        KeepsDecision(p, a, b);
        Unfold(p, a);
        Unfold(p, a + b);
        assert (a + b)[n..] == a[n..] + b;
        ParseConcat(p, a[n..], b);
        var x' := Parse(p, a[n..]);
        if !x.halted {
          Assoc([out], x'.outs, Parse(p, x.rest + b).outs);
        }
      case Wait =>
        var y := Parse(p, a + b);
        assert [] + y.outs == y.outs;
      case Halt =>
        KeepsDecision(p, a, b);
    }
  }

  /** What is left over is input on which the parser waits. */
  lemma {:induction false} RestWaits<B(!new), O(!new)>(p: Parser<B, O>, s: seq<B>)
    requires WellBehaved(p)
    ensures var x := Parse(p, s); if x.halted then p(x.rest).Halt? else p(x.rest).Wait?
    ensures |Parse(p, s).rest| <= |s|
    decreases |s|
  {
    if p(s).Take? {
      Unfold(p, s);
      RestWaits(p, s[p(s).n..]);
    }
  }

  /** How the stream was cut into chunks never shows in the items. */
  lemma {:induction false} SplitIndependent<B(!new), O(!new)>(p: Parser<B, O>, carry: seq<B>, chunks: seq<seq<B>>)
    requires WellBehaved(p) && p(carry).Wait?
    ensures var x := FeedAll(p, carry, chunks);
            var z := Parse(p, carry + Flatten(chunks));
            && x.outs == z.outs && x.halted == z.halted
            && (!x.halted ==> x.rest == z.rest)
    decreases |chunks|
  {
    if chunks == [] {
      assert carry + Flatten(chunks) == carry;
    } else {
      var a := carry + chunks[0];
      assert carry + Flatten(chunks) == a + Flatten(chunks[1..]);
      ParseConcat(p, a, Flatten(chunks[1..]));
      RestWaits(p, a);
      if !Parse(p, a).halted {
        SplitIndependent(p, Parse(p, a).rest, chunks[1..]);
      }
    }
  }
}
