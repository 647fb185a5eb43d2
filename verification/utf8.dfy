/** The streaming UTF-8 decoder that sits between the pseudo-terminal and the emulator. */
module Utf8 {
  import opened Incremental
  import opened Options

  type Byte = b: int | 0 <= b < 256

  const REPLACEMENT: char := '\U{FFFD}'

  /** Longest encoding of one scalar value. */
  const MAX_UTF8_LEN: nat := 4

  // ----- The grammar of section 4 of RFC 3629 -----

  predicate Tail(b: Byte) {
    0x80 <= b <= 0xBF
  }

  /** `s` is the encoding of exactly one character. */
  predicate IsChar(s: seq<Byte>) {
    || (|s| == 1 && s[0] <= 0x7F)
    || (|s| == 2 && 0xC2 <= s[0] <= 0xDF && Tail(s[1]))
    || (|s| == 3 && Tail(s[2]) &&
        (|| (s[0] == 0xE0 && 0xA0 <= s[1] <= 0xBF)
         || (0xE1 <= s[0] <= 0xEC && Tail(s[1]))
         || (s[0] == 0xED && 0x80 <= s[1] <= 0x9F)
         || (0xEE <= s[0] <= 0xEF && Tail(s[1]))))
    || (|s| == 4 && Tail(s[2]) && Tail(s[3]) &&
        (|| (s[0] == 0xF0 && 0x90 <= s[1] <= 0xBF)
         || (0xF1 <= s[0] <= 0xF3 && Tail(s[1]))
         || (s[0] == 0xF4 && 0x80 <= s[1] <= 0x8F)))
  }

  function CodePoint(s: seq<Byte>): (v: int)
    requires IsChar(s)
    ensures 0 <= v < 0xD800 || 0xE000 <= v < 0x110000
  {
    var lead: int := s[0];
    if |s| == 1 then lead
    else
      var b1: int := s[1] - 0x80;
      if |s| == 2 then (lead - 0xC0) * 64 + b1
      else
        var b2: int := s[2] - 0x80;
        if |s| == 3 then ((lead - 0xE0) * 64 + b1) * 64 + b2
        else
          var b3: int := s[3] - 0x80;
          (((lead - 0xF0) * 64 + b1) * 64 + b2) * 64 + b3
  }

  /** The scalar value an encoded character stands for. */
  function Scalar(s: seq<Byte>): char {
    if IsChar(s) then CodePoint(s) as char else REPLACEMENT
  }

  /** The encoding of one scalar value. */
  function Encode(c: char): seq<Byte> {
    var v := c as int;
    var q := v / 64;
    var p := q / 64;
    if v < 0x80 then [v]
    else if v < 0x800 then [0xC0 + q, 0x80 + v % 64]
    else if v < 0x10000 then [0xE0 + p, 0x80 + q % 64, 0x80 + v % 64]
    else [0xF0 + p / 64, 0x80 + p % 64, 0x80 + q % 64, 0x80 + v % 64]
  }

  function EncodeText(t: string): seq<Byte> {
    if t == "" then [] else Encode(t[0]) + EncodeText(t[1..])
  }

  /** `text.len()` of the source: the number of bytes the text occupies. */
  function TextBytes(t: string): nat {
    |EncodeText(t)|
  }

  // ----- Reference: one-shot lossy decoding, section 3.9 of the Unicode Standard -----

  /** `s` is a proper prefix of some encoded character. */
  ghost predicate Extends(s: seq<Byte>) {
    exists t: seq<Byte> :: t != [] && IsChar(s + t)
  }

  ghost predicate StartsWithChar(s: seq<Byte>) {
    exists n :: 0 < n <= |s| && IsChar(s[..n])
  }

  /** The longest `j <= k` such that `s[..j]` could still become a character, and at least one. */
  ghost function LongestSubpart(s: seq<Byte>, k: nat): (j: nat)
    requires 0 < k <= |s|
    ensures 0 < j <= k
  {
    if k == 1 || Extends(s[..k]) then k else LongestSubpart(s, k - 1)
  }

  /** Every character decoded, and one U+FFFD for each maximal ill-formed subpart. */
  ghost function Lossy(s: seq<Byte>): string
    decreases |s|
  {
    if s == [] then ""
    else if StartsWithChar(s) then
      var n :| 0 < n <= |s| && IsChar(s[..n]);
      [Scalar(s[..n])] + Lossy(s[n..])
    else
      [REPLACEMENT] + Lossy(s[LongestSubpart(s, |s|)..])
  }

  // ----- What `from_utf8` finds at the front of its input -----

  /** A complete character of `n` bytes, an error of `n` bytes (`error_len`), or input that ends early. */
  datatype Head = Whole(n: nat) | Bad(n: nat) | Cut

  function Width(b: Byte): nat {
    if b <= 0x7F then 1
    else if 0xC2 <= b <= 0xDF then 2
    else if 0xE0 <= b <= 0xEF then 3
    else if 0xF0 <= b <= 0xF4 then 4
    else 0
  }

  /** The byte at `k` may follow the bytes before it. */
  predicate Follows(s: seq<Byte>, k: nat)
    requires 0 < k < |s|
  {
    if k > 1 then Tail(s[k])
    else if s[0] == 0xE0 then 0xA0 <= s[1] <= 0xBF
    else if s[0] == 0xED then 0x80 <= s[1] <= 0x9F
    else if s[0] == 0xF0 then 0x90 <= s[1] <= 0xBF
    else if s[0] == 0xF4 then 0x80 <= s[1] <= 0x8F
    else Tail(s[1])
  }

  /** Check the bytes from `k` on of a character of `w` bytes. */
  function Continue(s: seq<Byte>, w: nat, k: nat): (h: Head)
    requires 0 < k <= w && k <= |s|
    ensures h.Whole? ==> h.n == w <= |s|
    ensures h.Bad? ==> k <= h.n < w && h.n < |s|
    ensures h.Cut? ==> |s| < w
    decreases w - k
  {
    if k == w then Whole(w)
    else if k == |s| then Cut
    else if !Follows(s, k) then Bad(k)
    else Continue(s, w, k + 1)
  }

  function Classify(s: seq<Byte>): (h: Head)
    requires s != []
    ensures !h.Cut? ==> 0 < h.n <= |s|
    ensures h.Cut? ==> |s| < MAX_UTF8_LEN
  {
    var w := Width(s[0]);
    if w == 0 then Bad(1) else Continue(s, w, 1)
  }

  /** `valid_up_to`: the length of the longest prefix made of whole characters. */
  function ValidUpTo(s: seq<Byte>): (n: nat)
    ensures n <= |s|
    ensures n < |s| ==> !Classify(s[n..]).Whole?
  {
    if s == [] then 0
    else match Classify(s)
      case Whole(k) =>
        var r := ValidUpTo(s[k..]);
        assert s[k..][r..] == s[k + r..];
        k + r
      case _ => 0
  }

  // ----- Streaming decoding -----

  /** The next character of the text, or a replacement for the ill-formed bytes at the front. */
  function NextChar(s: seq<Byte>): Step<char> {
    if s == [] then Wait
    else match Classify(s)
      case Whole(n) => Take(n, Scalar(s[..n]))
      case Bad(n) => Take(n, REPLACEMENT)
      case Cut => Wait
  }

  /** Everything that is complete in `s`, and the incomplete sequence left at its end. */
  function Decode(s: seq<Byte>): Parsed<Byte, char> {
    Parse(NextChar, s)
  }

  function FlushText(partial: seq<Byte>): string {
    if partial == [] then "" else [REPLACEMENT]
  }

  /**
    * `std::str::from_utf8`: the text of the longest valid prefix, its length (`valid_up_to`), and for
    * the rest `error_len`, which is absent when the input ends inside a character.
    */
  method FromUtf8(s: seq<Byte>) returns (text: string, valid: nat, errorLen: Option<nat>)
    ensures valid <= |s|
    ensures valid == |s| ==> Decode(s) == Parsed(text, [], false)
    ensures valid < |s| && errorLen.Some? ==>
              && 0 < errorLen.value <= |s| - valid
              && var r := Decode(s[valid + errorLen.value..]);
                 Decode(s) == Parsed(text + [REPLACEMENT] + r.outs, r.rest, false)
    ensures valid < |s| && errorLen.None? ==>
              && |s| - valid < MAX_UTF8_LEN
              && Decode(s) == Parsed(text, s[valid..], false)
  {
    hide *;
    valid := ValidUpTo(s);
    ValidPrefixHasNoTail(s, valid);
    FeedStep(s, valid);
    text := Decode(s[..valid]).outs;
    errorLen := if valid < |s| && Classify(s[valid..]).Bad? then Some(Classify(s[valid..]).n) else None;
  }

  class Utf8Decoder {
    var partial: seq<Byte>

    ghost predicate Valid()
      reads this
    {
      NextChar(partial).Wait?
    }

    constructor ()
      ensures Valid() && partial == []
    {
      partial := [];
    }

    method Feed(input: seq<Byte>) returns (out: string)
      requires Valid()
      modifies this
      ensures Valid()
      ensures out == Decode(old(partial) + input).outs
      ensures partial == Decode(old(partial) + input).rest
    {
      hide NextChar, Parse;
      DecodeEmpty();
      var buf := partial + input;
      partial := [];
      out := "";
      var idx := 0;
      NeverHalts(buf);
      assert buf[0..] == buf;
      while idx < |buf|
        invariant DecodedUpTo(buf, idx, out, partial)
        invariant idx <= |buf| && (idx < |buf| ==> partial == [])
      {
        var text, valid, errorLen := FromUtf8(buf[idx..]);
        if idx + valid == |buf| {
          Finish(buf, idx, out, text, []);
          out := out + text;
          idx := |buf|;
        } else {
          match errorLen {
            case Some(bad) =>
              SkipError(buf, idx, out, text, valid + bad);
              out := out + text + [REPLACEMENT];
              idx := idx + valid + bad;
            case None =>
              var tail := buf[idx + valid..];
              assert buf[idx..][valid..] == tail == partial + tail;
              Finish(buf, idx, out, text, tail);
              out := out + text;
              if |tail| < MAX_UTF8_LEN {
                partial := partial + tail;
              } else {
                out := out + [REPLACEMENT];
              }
              idx := |buf|;
          }
        }
      }
    }

    method Flush() returns (out: string)
      requires Valid()
      modifies this
      ensures Valid() && partial == []
      ensures out == FlushText(old(partial))
    {
      if partial == [] {
        out := "";
      } else {
        partial := [];
        out := [REPLACEMENT];
      }
    }
  }

  // ----- Proofs -----

  /** More input never changes what was already decided at the front. */
  lemma ClassifyStable(a: seq<Byte>, b: seq<Byte>)
    requires a != [] && !Classify(a).Cut?
    ensures Classify(a + b) == Classify(a)
  {
    if Width(a[0]) > 0 {
      ContinueStable(a, b, Width(a[0]), 1);
    }
  }

  lemma {:induction false} ContinueStable(a: seq<Byte>, b: seq<Byte>, w: nat, k: nat)
    requires 0 < k <= w && k <= |a|
    requires !Continue(a, w, k).Cut?
    ensures Continue(a + b, w, k) == Continue(a, w, k)
    decreases w - k
  {
    if k < w && k < |a| && Follows(a, k) {
      ContinueStable(a, b, w, k + 1);
    }
  }

  lemma NextCharWellBehaved()
    ensures WellBehaved(NextChar)
  {
    forall a: seq<Byte>, b: seq<Byte> | !NextChar(a).Wait?
      ensures NextChar(a + b) == NextChar(a)
    {
      ClassifyStable(a, b);
      assert (a + b)[..Classify(a).n] == a[..Classify(a).n];
    }
  }

  /** One round of the decoding loop: the valid prefix, then the error or the incomplete end. */
  lemma FeedStep(s: seq<Byte>, v: nat)
    requires v <= |s| && Decode(s[..v]).rest == [] && !Decode(s[..v]).halted
    requires v < |s| ==> !Classify(s[v..]).Whole?
    ensures v == |s| ==> Decode(s) == Parsed(Decode(s[..v]).outs, [], false)
    ensures v < |s| && Classify(s[v..]).Bad? ==>
              var r := Decode(s[v + Classify(s[v..]).n..]);
              Decode(s) == Parsed(Decode(s[..v]).outs + [REPLACEMENT] + r.outs, r.rest, false)
    ensures v < |s| && Classify(s[v..]).Cut? ==> Decode(s) == Parsed(Decode(s[..v]).outs, s[v..], false)
  {
    hide Classify, NextChar, Parse;
    var a, b := s[..v], s[v..];
    assert a + b == s;
    NextCharWellBehaved();
    ParseConcat(NextChar, a, b);
    assert [] + b == b;
    DecodeError(b, Decode(a).outs);
    if v < |s| && Classify(b).Bad? {
      assert b[Classify(b).n..] == s[v + Classify(b).n..];
    }
  }

  /** The loop has decoded `buf[..idx]` into `out`, and stashed `partial` only at the end. */
  ghost predicate DecodedUpTo(buf: seq<Byte>, idx: nat, out: string, partial: seq<Byte>) {
    && idx <= |buf|
    && if idx == |buf| then Decode(buf).outs == out && Decode(buf).rest == partial
       else
         && partial == []
         && Decode(buf).outs == out + Decode(buf[idx..]).outs
         && Decode(buf).rest == Decode(buf[idx..]).rest
  }

  lemma Finish(buf: seq<Byte>, idx: nat, out: string, text: string, tail: seq<Byte>)
    requires idx < |buf| && DecodedUpTo(buf, idx, out, [])
    requires Decode(buf[idx..]) == Parsed(text, tail, false)
    ensures DecodedUpTo(buf, |buf|, out + text, tail)
  {
  }

  lemma SkipError(buf: seq<Byte>, idx: nat, out: string, text: string, n: nat)
    requires idx < |buf| && DecodedUpTo(buf, idx, out, []) && idx + n <= |buf|
    requires var r := Decode(buf[idx..][n..]);
             Decode(buf[idx..]) == Parsed(text + [REPLACEMENT] + r.outs, r.rest, false)
    ensures DecodedUpTo(buf, idx + n, out + text + [REPLACEMENT], [])
  {
    hide Classify;
    assert buf[idx..][n..] == buf[idx + n..];
    var r := Decode(buf[idx + n..]).outs;
    assert out + (text + [REPLACEMENT] + r) == (out + text + [REPLACEMENT]) + r;
    if idx + n == |buf| {
      assert buf[idx + n..] == [];
    }
  }

  /** Decoding input that does not start with a character. */
  lemma DecodeError(b: seq<Byte>, t: string)
    requires b != [] ==> !Classify(b).Whole?
    ensures !Decode(b).halted
    ensures b == [] ==> Decode(b).rest == [] && t + Decode(b).outs == t
    ensures b != [] && Classify(b).Cut? ==> Decode(b).rest == b && t + Decode(b).outs == t
    ensures b != [] && Classify(b).Bad? ==>
              var r := Decode(b[Classify(b).n..]);
              t + Decode(b).outs == t + [REPLACEMENT] + r.outs && Decode(b).rest == r.rest
  {
    NeverHalts(b);
    if b != [] && Classify(b).Bad? {
      Assoc(t, [REPLACEMENT], Decode(b[Classify(b).n..]).outs);
    }
  }

  lemma DecodeConcat(a: seq<Byte>, b: seq<Byte>)
    ensures var x := Decode(a);
            var y := Decode(x.rest + b);
            Decode(a + b).outs == x.outs + y.outs && Decode(a + b).rest == y.rest
  {
    hide NextChar, Parse;
    NextCharWellBehaved();
    NeverHalts(a);
    ParseConcat(NextChar, a, b);
  }

  lemma DecodeEmpty()
    ensures Decode([]) == Parsed([], [], false)
  {
  }

  lemma NeverHalts(s: seq<Byte>)
    ensures !Decode(s).halted
    ensures NextChar(Decode(s).rest).Wait?
  {
    NextCharWellBehaved();
    RestWaits(NextChar, s);
  }

  lemma {:induction false} ValidPrefixHasNoTail(s: seq<Byte>, v: nat)
    requires v == ValidUpTo(s)
    ensures Decode(s[..v]).rest == []
    ensures !Decode(s[..v]).halted
    decreases |s|
  {
    hide Classify;
    if s != [] && Classify(s).Whole? {
      var n := Classify(s).n;
      var p := s[..v];
      var q := s[n..];
      ValidPrefixHasNoTail(q, v - n);
      assert p[n..] == q[..v - n];
      WholeStays(s, v, n);
    }
  }

  lemma WholeStays(s: seq<Byte>, v: nat, n: nat)
    requires 0 < n <= v <= |s| && Classify(s) == Whole(n)
    ensures NextChar(s[..v]).Take? && NextChar(s[..v]).n == n
  {
    var p := s[..v];
    assert p[..n] == s[..n];
    WholeIsChar(s);
    CharClassifies(p, n);
  }

  /** A prefix that is one character is what `Classify` finds; the encoding is prefix-free. */
  lemma CharClassifies(s: seq<Byte>, n: nat)
    requires 0 < n <= |s| && IsChar(s[..n])
    ensures Classify(s) == Whole(n)
  {
    var p := s[..n];
    assert forall i :: 0 <= i < n ==> p[i] == s[i];
    assert n > 1 ==> Follows(s, 1);
    assert n > 2 ==> Follows(s, 2);
    assert n > 3 ==> Follows(s, 3);
    AllFollow(s, n, 1);
  }

  lemma {:induction false} AllFollow(s: seq<Byte>, w: nat, k: nat)
    requires 0 < k <= w <= |s|
    ensures (forall i :: k <= i < w ==> Follows(s, i)) <==> Continue(s, w, k) == Whole(w)
    decreases w - k
  {
    if k < w {
      AllFollow(s, w, k + 1);
    }
  }

  lemma WholeIsChar(s: seq<Byte>)
    requires s != [] && Classify(s).Whole?
    ensures IsChar(s[..Classify(s).n])
  {
    var w := Classify(s).n;
    AllFollow(s, w, 1);
    assert w > 1 ==> Follows(s, 1);
    assert w > 2 ==> Follows(s, 2);
    assert w > 3 ==> Follows(s, 3);
  }

  /** Input is cut short exactly when some further bytes would complete a character. */
  lemma CutIsExtends(s: seq<Byte>)
    requires s != []
    ensures Classify(s).Cut? <==> Extends(s)
  {
    if Classify(s).Cut? {
      CutCompletes(s);
    }
    if Extends(s) && !Classify(s).Cut? {
      var t :| t != [] && IsChar(s + t);
      ClassifyStable(s, t);
      assert (s + t)[..|s + t|] == s + t;
      CharClassifies(s + t, |s + t|);
      assert false;
    }
  }

  lemma {:induction false} CutCompletes(s: seq<Byte>)
    requires s != [] && Classify(s).Cut?
    ensures Extends(s)
    decreases 4 - |s|
  {
    var next: Byte :=
      if |s| > 1 then 0x80 else if s[0] == 0xE0 then 0xA0 else if s[0] == 0xF0 then 0x90 else 0x80;
    var u := s + [next];
    var w := Width(s[0]);
    CutContinues(s, next, w, 1);
    if |u| == w {
      WholeIsChar(u);
      assert u[..w] == u;
      assert Extends(s);
    } else {
      CutCompletes(u);
      var t :| t != [] && IsChar(u + t);
      assert u + t == s + ([next] + t);
    }
  }

  lemma {:induction false} CutContinues(s: seq<Byte>, next: Byte, w: nat, k: nat)
    requires 0 < k <= |s| < w
    requires Continue(s, w, k).Cut? && Follows(s + [next], |s|)
    ensures Continue(s + [next], w, k) == if |s| + 1 == w then Whole(w) else Cut
    decreases w - k
  {
    if k < |s| {
      assert Follows(s, k) && Follows(s + [next], k);
      CutContinues(s, next, w, k + 1);
    }
  }

  /** An error of `n` bytes is the maximal ill-formed subpart. */
  lemma BadIsMaximalSubpart(s: seq<Byte>)
    requires s != [] && !Classify(s).Whole?
    ensures !StartsWithChar(s)
    ensures LongestSubpart(s, |s|) == if Classify(s).Bad? then Classify(s).n else |s|
  {
    if StartsWithChar(s) {
      var n :| 0 < n <= |s| && IsChar(s[..n]);
      CharClassifies(s, n);
      assert false;
    }
    CutIsExtends(s);
    assert s[..|s|] == s;
    if Classify(s).Bad? {
      LongestIsBad(s, |s|);
    }
  }

  lemma {:induction false} LongestIsBad(s: seq<Byte>, k: nat)
    requires s != [] && Classify(s).Bad? && Classify(s).n <= k <= |s|
    ensures LongestSubpart(s, k) == Classify(s).n
  {
    var n := Classify(s).n;
    if k > 1 {
      CutIsExtends(s[..k]);
      if k > n {
        LongestIsBad(s, k - 1);
      }
    }
  }

  /** Streaming plus a final flush is one-shot lossy decoding. */
  lemma {:induction false} DecodeIsLossy(s: seq<Byte>)
    ensures Lossy(s) == Decode(s).outs + FlushText(Decode(s).rest)
    decreases |s|
  {
    if s != [] {
      match Classify(s)
      case Whole(n) =>
        WholeIsChar(s);
        LossyTakesChar(s, n);
        DecodeIsLossy(s[n..]);
        Assoc([Scalar(s[..n])], Decode(s[n..]).outs, FlushText(Decode(s[n..]).rest));
      case Bad(n) =>
        BadIsMaximalSubpart(s);
        DecodeIsLossy(s[n..]);
        Assoc([REPLACEMENT], Decode(s[n..]).outs, FlushText(Decode(s[n..]).rest));
      case Cut =>
        BadIsMaximalSubpart(s);
        assert s[|s|..] == [];
    }
  }

  lemma LossyTakesChar(s: seq<Byte>, n: nat)
    requires 0 < n <= |s| && IsChar(s[..n])
    ensures Lossy(s) == [Scalar(s[..n])] + Lossy(s[n..])
  {
    assert StartsWithChar(s);
    var m :| 0 < m <= |s| && IsChar(s[..m]) && Lossy(s) == [Scalar(s[..m])] + Lossy(s[m..]);
    CharClassifies(s, m);
    CharClassifies(s, n);
  }

  /**
    * For every byte stream and every way of cutting it into reads: the text of all `feed` calls and
    * the final `flush` is the one-shot lossy decoding, and what is carried between calls is a
    * proper prefix of an encoded character, so it is shorter than `MAX_UTF8_LEN`.
    */
  lemma DecoderIgnoresReadBoundaries(chunks: seq<seq<Byte>>)
    ensures var d := FeedAll(NextChar, [], chunks);
            d.outs + FlushText(d.rest) == Lossy(Flatten(chunks))
    ensures var d := FeedAll(NextChar, [], chunks);
            |d.rest| < MAX_UTF8_LEN && (d.rest != [] ==> Extends(d.rest))
  {
    NextCharWellBehaved();
    SplitIndependent(NextChar, [], chunks);
    assert [] + Flatten(chunks) == Flatten(chunks);
    DecodeIsLossy(Flatten(chunks));
    NeverHalts(Flatten(chunks));
    var d := FeedAll(NextChar, [], chunks);
    if d.rest != [] {
      CutIsExtends(d.rest);
    }
  }

  /** `Encode` and `Scalar` are inverse bijections between scalar values and encoded characters. */
  lemma EncodeRoundTrip(c: char)
    ensures IsChar(Encode(c)) && Scalar(Encode(c)) == c
  {
    var v := c as int;
    EncodeIsChar(v);
    assert CodePoint(Encode(c)) == v;
  }

  lemma EncodeIsChar(v: int)
    requires 0 <= v < 0xD800 || 0xE000 <= v < 0x110000
    ensures IsChar(Encode(v as char))
  {
  }

  lemma ScalarRoundTrip(s: seq<Byte>)
    requires IsChar(s)
    ensures Encode(Scalar(s)) == s
  {
    var lead: int := s[0];
    if |s| == 2 {
      Quotient(lead - 0xC0, s[1] - 0x80);
    } else if |s| == 3 {
      var b1: int := s[1] - 0x80;
      var q := (lead - 0xE0) * 64 + b1;
      Quotient(lead - 0xE0, b1);
      Quotient(q, s[2] - 0x80);
    } else if |s| == 4 {
      var b1: int, b2: int := s[1] - 0x80, s[2] - 0x80;
      var p := (lead - 0xF0) * 64 + b1;
      var q := p * 64 + b2;
      Quotient(lead - 0xF0, b1);
      Quotient(p, b2);
      Quotient(q, s[3] - 0x80);
    }
  }

  lemma Quotient(q: int, r: int)
    requires 0 <= r < 64
    ensures (q * 64 + r) / 64 == q && (q * 64 + r) % 64 == r
  {
  }

  /** Text that really is UTF-8 comes through unchanged. */
  lemma {:induction false} TextSurvives(t: string)
    ensures Decode(EncodeText(t)) == Parsed(t, [], false)
    ensures Lossy(EncodeText(t)) == t
    decreases |t|
  {
    if t != "" {
      var s := EncodeText(t);
      var n := |Encode(t[0])|;
      EncodeRoundTrip(t[0]);
      assert s[..n] == Encode(t[0]) && s[n..] == EncodeText(t[1..]);
      CharClassifies(s, n);
      TextSurvives(t[1..]);
      assert [t[0]] + t[1..] == t;
    }
    DecodeIsLossy(EncodeText(t));
  }

  lemma EncodeTextInjective(t: string, u: string)
    requires EncodeText(t) == EncodeText(u)
    ensures t == u
  {
    TextSurvives(t);
    TextSurvives(u);
  }

  lemma FlushIsSmall(partial: seq<Byte>)
    ensures TextBytes(FlushText(partial)) <= 3
  {
    assert REPLACEMENT as int == 0xFFFD;
    assert |Encode(REPLACEMENT)| == 3;
    assert EncodeText([REPLACEMENT]) == Encode(REPLACEMENT) + EncodeText([REPLACEMENT][1..]);
  }

  lemma RestIsShort(s: seq<Byte>)
    ensures |Decode(s).rest| < MAX_UTF8_LEN
  {
    NeverHalts(s);
  }

  /** Decoding grows text at most threefold: an ill-formed byte becomes the three bytes of U+FFFD. */
  lemma {:induction false} ExpansionBound(s: seq<Byte>)
    ensures TextBytes(Decode(s).outs) <= 3 * (|s| - |Decode(s).rest|)
    decreases |s|
  {
    if s != [] && !Classify(s).Cut? {
      var n := Classify(s).n;
      ExpansionBound(s[n..]);
      var d := Decode(s);
      assert d.outs[1..] == Decode(s[n..]).outs;
      assert |Encode(d.outs[0])| <= 3 * n by {
        if Classify(s).Whole? {
          WholeIsChar(s);
          ScalarRoundTrip(s[..n]);
        }
      }
    }
  }
}
