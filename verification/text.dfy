/** Character classes and trimming, as the source's string library defines them. */
module Text {

  /** Unicode White_Space. */
  predicate IsWhite(c: char) {
    || c == ' ' || '\t' <= c <= '\r' || c == '\U{85}' || c == '\U{A0}' || c == '\U{1680}'
    || '\U{2000}' <= c <= '\U{200A}' || c == '\U{2028}' || c == '\U{2029}' || c == '\U{202F}'
    || c == '\U{205F}' || c == '\U{3000}'
  }

  predicate IsBlank(line: string) {
    forall c :: c in line ==> IsWhite(c)
  }

  function TrimStart(s: string): string {
    if s != "" && IsWhite(s[0]) then TrimStart(s[1..]) else s
  }

  function TrimEnd(s: string): string {
    if s != "" && IsWhite(s[|s| - 1]) then TrimEnd(s[..|s| - 1]) else s
  }

  function Trim(s: string): string {
    TrimEnd(TrimStart(s))
  }

  predicate IsTrimmed(s: string) {
    s == "" || (!IsWhite(s[0]) && !IsWhite(s[|s| - 1]))
  }

  lemma {:induction false} TrimStartSpec(s: string)
    ensures var t := TrimStart(s);
            && |t| <= |s| && t == s[|s| - |t|..] && (t == "" || !IsWhite(t[0]))
    decreases |s|
  {
    if s != "" && IsWhite(s[0]) {
      TrimStartSpec(s[1..]);
    }
  }

  lemma {:induction false} TrimEndSpec(s: string)
    ensures var t := TrimEnd(s);
            && |t| <= |s| && t == s[..|t|] && (t == "" || !IsWhite(t[|t| - 1]))
    decreases |s|
  {
    if s != "" && IsWhite(s[|s| - 1]) {
      TrimEndSpec(s[..|s| - 1]);
    }
  }

  /** Trimming yields a trimmed piece of the string, and leaves a trimmed string alone. */
  lemma TrimSpec(s: string)
    ensures IsTrimmed(Trim(s))
    ensures forall c :: c in Trim(s) ==> c in s
    ensures IsTrimmed(s) ==> Trim(s) == s
  {
    TrimStartSpec(s);
    TrimEndSpec(TrimStart(s));
  }

  /** What trimming takes away is white space at both ends. */
  lemma TrimCut(s: string) returns (i: nat, j: nat)
    ensures i <= j <= |s| && Trim(s) == s[i..j] && IsBlank(s[..i]) && IsBlank(s[j..])
  {
    i := StartCut(s);
    var t := TrimStart(s);
    var n := EndCut(t);
    j := i + n;
    assert t[..n] == s[i..j];
    assert s[j..] == t[n..];
  }

  lemma {:induction false} StartCut(s: string) returns (i: nat)
    ensures i <= |s| && TrimStart(s) == s[i..] && IsBlank(s[..i])
    decreases |s|
  {
    i := 0;
    if s != "" && IsWhite(s[0]) {
      var k := StartCut(s[1..]);
      i := k + 1;
      assert s[..i] == [s[0]] + s[1..][..k];
    }
  }

  lemma {:induction false} EndCut(s: string) returns (j: nat)
    ensures j <= |s| && TrimEnd(s) == s[..j] && IsBlank(s[j..])
    decreases |s|
  {
    j := |s|;
    if s != "" && IsWhite(s[|s| - 1]) {
      var n := |s| - 1;
      j := EndCut(s[..n]);
      assert s[j..] == s[..n][j..] + [s[n]];
    }
  }

  /** A trimmed middle between white space is what trimming yields. */
  lemma TrimIs(a: string, mid: string, b: string)
    requires IsBlank(a) && IsBlank(b) && mid != "" && IsTrimmed(mid)
    ensures Trim(a + mid + b) == mid
  {
    assert a + mid + b == a + (mid + b);
    assert (mid + b)[0] == mid[0];
    TrimStartIs(a, mid + b);
    TrimEndIs(mid, b);
  }

  lemma {:induction false} TrimStartIs(a: string, rest: string)
    requires IsBlank(a) && rest != "" && !IsWhite(rest[0])
    ensures TrimStart(a + rest) == rest
    decreases |a|
  {
    if a == "" {
      assert a + rest == rest;
    } else {
      assert (a + rest)[1..] == a[1..] + rest;
      TrimStartIs(a[1..], rest);
    }
  }

  lemma {:induction false} TrimEndIs(front: string, b: string)
    requires IsBlank(b) && front != "" && !IsWhite(front[|front| - 1])
    ensures TrimEnd(front + b) == front
    decreases |b|
  {
    if b == "" {
      assert front + b == front;
    } else {
      var n := |b| - 1;
      assert (front + b)[..|front| + n] == front + b[..n];
      TrimEndIs(front, b[..n]);
    }
  }

  /** The pieces between separators; there is always at least one. */
  function Split(s: string, sep: char): (pieces: seq<string>)
    ensures pieces != []
  {
    if s == "" then [""]
    else
      var rest := Split(s[1..], sep);
      if s[0] == sep then [""] + rest else [[s[0]] + rest[0]] + rest[1..]
  }

  function Join(pieces: seq<string>, sep: char): string {
    if pieces == [] then "" else if |pieces| == 1 then pieces[0]
    else pieces[0] + [sep] + Join(pieces[1..], sep)
  }

  lemma {:induction false} SplitHasNoSeparator(s: string, sep: char)
    ensures forall p :: p in Split(s, sep) ==> sep !in p
    decreases |s|
  {
    if s != "" {
      SplitHasNoSeparator(s[1..], sep);
    }
  }

  lemma {:induction false} SplitPrepend(p: string, s: string, sep: char)
    requires sep !in p
    ensures Split(p + s, sep) == [p + Split(s, sep)[0]] + Split(s, sep)[1..]
    decreases |p|
  {
    var pieces := Split(s, sep);
    if p == "" {
      assert p + s == s && p + pieces[0] == pieces[0];
      assert [pieces[0]] + pieces[1..] == pieces;
    } else {
      assert (p + s)[1..] == p[1..] + s;
      SplitPrepend(p[1..], s, sep);
      assert [p[0]] + (p[1..] + Split(s, sep)[0]) == p + Split(s, sep)[0];
    }
  }

  lemma {:induction false} SplitJoin(pieces: seq<string>, sep: char)
    requires pieces != [] && forall p :: p in pieces ==> sep !in p
    ensures Split(Join(pieces, sep), sep) == pieces
    decreases |pieces|
  {
    var p := pieces[0];
    if |pieces| == 1 {
      SplitPrepend(p, "", sep);
      assert p + "" == p;
    } else {
      var rest := Join(pieces[1..], sep);
      SplitJoin(pieces[1..], sep);
      SplitPrepend(p, [sep] + rest, sep);
      assert p + [sep] + rest == p + ([sep] + rest);
      assert ([sep] + rest)[1..] == rest;
      assert Split([sep] + rest, sep) == [""] + pieces[1..];
      assert p + "" == p && [p] + pieces[1..] == pieces;
    }
  }

  lemma {:induction false} JoinSplit(s: string, sep: char)
    ensures Join(Split(s, sep), sep) == s
    decreases |s|
  {
    if s != "" {
      JoinSplit(s[1..], sep);
      var rest := Split(s[1..], sep);
      if s[0] == sep {
        assert ([""] + rest)[1..] == rest;
        assert Join([""] + rest, sep) == "" + [sep] + s[1..];
      } else {
        var pieces := [[s[0]] + rest[0]] + rest[1..];
        assert pieces[1..] == rest[1..];
        assert Join(pieces, sep) == [s[0]] + s[1..];
      }
    }
  }

  lemma {:induction false} JoinTrimmed(pieces: seq<string>, sep: char)
    requires !IsWhite(sep) && forall p :: p in pieces ==> IsTrimmed(p)
    ensures IsTrimmed(Join(pieces, sep))
    decreases |pieces|
  {
    if |pieces| > 1 {
      JoinTrimmed(pieces[1..], sep);
      var p, rest := pieces[0], Join(pieces[1..], sep);
      assert p in pieces && IsTrimmed(p);
      var s := p + [sep] + rest;
      assert s[0] == if p == "" then sep else p[0];
      assert s[|s| - 1] == if rest == "" then sep else rest[|rest| - 1];
    }
  }

  function Lower(c: char): char {
    if 'A' <= c <= 'Z' then ((c as int) + 32) as char else c
  }

  function LowerAll(s: string): (t: string)
    ensures |t| == |s| && forall i :: 0 <= i < |s| ==> t[i] == Lower(s[i])
  {
    seq(|s|, i requires 0 <= i < |s| => Lower(s[i]))
  }

  function Map(f: string -> string, pieces: seq<string>): (r: seq<string>)
    ensures |r| == |pieces| && forall i :: 0 <= i < |pieces| ==> r[i] == f(pieces[i])
  {
    seq(|pieces|, i requires 0 <= i < |pieces| => f(pieces[i]))
  }

  lemma LowerKeepsTrim(s: string)
    ensures IsTrimmed(LowerAll(s)) == IsTrimmed(s)
    ensures LowerAll(LowerAll(s)) == LowerAll(s)
    ensures ';' in LowerAll(s) <==> ';' in s
  {
  }

  lemma {:induction false} LowerJoin(pieces: seq<string>)
    ensures LowerAll(Join(pieces, ';')) == Join(Map(LowerAll, pieces), ';')
    decreases |pieces|
  {
    if |pieces| > 1 {
      LowerJoin(pieces[1..]);
      assert Map(LowerAll, pieces)[1..] == Map(LowerAll, pieces[1..]);
      var p, rest := pieces[0], Join(pieces[1..], ';');
      assert LowerAll(p + ";" + rest) == LowerAll(p) + ";" + LowerAll(rest);
    }
  }
}
