/** The scanner that tracks DEC private modes in the child's output. */
module Modes {
  import opened Incremental

  const ESC: char := '\U{1B}'
  const CSI: char := '\U{9B}'

  const U16_MAX: nat := 65535

  type U16 = n: nat | n <= U16_MAX

  datatype ModeSet = ModeSet(altScreen: bool, bracketedPaste: bool)

  datatype Phase = Ground | Escape | Csi | PrivateParams

  datatype Current = Absent | Number(value: U16)

  datatype Scanner = Scanner(phase: Phase, params: seq<U16>, current: Current, modes: ModeSet)

  const FRESH: Scanner := Scanner(Ground, [], Absent, ModeSet(false, false))

  function SaturatingMul(a: U16, b: U16): U16 {
    if a * b <= U16_MAX then a * b else U16_MAX
  }

  function SaturatingAdd(a: U16, b: U16): U16 {
    if a + b <= U16_MAX then a + b else U16_MAX
  }

  predicate IsDigit(c: char) {
    '0' <= c <= '9'
  }

  function DigitValue(c: char): U16
    requires IsDigit(c)
  {
    (c as int) - ('0' as int)
  }

  /** What one mode number does when it is set or reset. */
  function Apply(modes: ModeSet, param: nat, enable: bool): ModeSet {
    if param == 47 || param == 1047 || param == 1049 then modes.(altScreen := enable)
    else if param == 2004 then modes.(bracketedPaste := enable)
    else modes
  }

  /** Parameters take effect from left to right. */
  function ApplyAll(modes: ModeSet, params: seq<nat>, enable: bool): ModeSet
    decreases |params|
  {
    if params == [] then modes
    else ApplyAll(Apply(modes, params[0], enable), params[1..], enable)
  }

  /** One character of output. */
  function Next(s: Scanner, c: char): Scanner {
    match s.phase
    case Ground =>
      if c == ESC then s.(phase := Escape)
      else if c == CSI then Scanner(Csi, [], Absent, s.modes)
      else s
    case Escape =>
      if c == '[' then Scanner(Csi, [], Absent, s.modes)
      else if c == ESC then s
      else s.(phase := Ground)
    case Csi =>
      if c == '?' then Scanner(PrivateParams, [], Absent, s.modes)
      else s.(phase := Ground)
    case PrivateParams =>
      if IsDigit(c) then
        var acc := if s.current.Number? then s.current.value else 0;
        s.(current := Number(SaturatingAdd(SaturatingMul(acc, 10), DigitValue(c))))
      else if c == ';' then
        s.(params := s.params + [if s.current.Number? then s.current.value else 0], current := Absent)
      else if c == 'h' || c == 'l' then
        var all := s.params + (if s.current.Number? then [s.current.value] else []);
        Scanner(Ground, [], Absent, ApplyAll(s.modes, all, c == 'h'))
      else Scanner(Ground, [], Absent, s.modes)
  }

  function Scan(s: Scanner, text: string): Scanner
    decreases |text|
  {
    if text == "" then s else Scan(Next(s, text[0]), text[1..])
  }

  class ModeScanner {
    var phase: Phase
    var params: seq<U16>
    var current: Current
    var modes: ModeSet

    function State(): Scanner
      reads this
    {
      Scanner(phase, params, current, modes)
    }

    constructor ()
      ensures State() == FRESH
    {
      phase := Ground;
      params := [];
      current := Absent;
      modes := ModeSet(false, false);
    }

    method Feed(text: string)
      modifies this
      ensures State() == Scan(old(State()), text)
    {
      for i := 0 to |text|
        invariant Scan(old(State()), text) == Scan(State(), text[i..])
      {
        Step(text[i]);
        assert text[i..][1..] == text[i + 1..];
      }
    }

    method Step(ch: char)
      modifies this
      ensures State() == Next(old(State()), ch)
    {
      match phase {
        case Ground =>
          if ch == ESC {
            phase := Escape;
          } else if ch == CSI {
            BeginCsi();
          }
        case Escape =>
          if ch == '[' {
            BeginCsi();
          } else if ch != ESC {
            phase := Ground;
          }
        case Csi =>
          if ch == '?' {
            phase, params, current := PrivateParams, [], Absent;
          } else {
            phase := Ground;
          }
        case PrivateParams =>
          if IsDigit(ch) {
            var acc := if current.Number? then current.value else 0;
            current := Number(SaturatingAdd(SaturatingMul(acc, 10), DigitValue(ch)));
          } else if ch == ';' {
            params := params + [if current.Number? then current.value else 0];
            current := Absent;
          } else if ch == 'h' || ch == 'l' {
            if current.Number? {
              params := params + [current.value];
              current := Absent;
            }
            assert params == old(params) + (if old(current).Number? then [old(current).value] else []);
            var pending := params;
            params := [];
            for i := 0 to |pending|
              invariant params == [] && current == Absent && phase == PrivateParams
              invariant ApplyAll(old(modes), pending, ch == 'h') == ApplyAll(modes, pending[i..], ch == 'h')
            {
              modes := Apply(modes, pending[i], ch == 'h');
              assert pending[i..][1..] == pending[i + 1..];
            }
            phase := Ground;
          } else {
            phase, params, current := Ground, [], Absent;
          }
      }
    }

    method BeginCsi()
      modifies this
      ensures State() == Scanner(Csi, [], Absent, old(modes))
    {
      phase, params, current := Csi, [], Absent;
    }
  }

  // ----- Reference: a private-mode control sequence, section 5.4 of ECMA-48 -----

  predicate IsNumber(digits: string) {
    forall c :: c in digits ==> IsDigit(c)
  }

  /** The decimal value of a digit string, unbounded; an empty parameter is zero. */
  function DecimalValue(digits: string): nat
    requires IsNumber(digits)
  {
    if digits == "" then 0
    else 10 * DecimalValue(digits[..|digits| - 1]) + DigitValue(digits[|digits| - 1])
  }

  /** The parameter string `p1;...;pn`. */
  function Join(ps: seq<string>): string {
    if ps == [] then "" else if |ps| == 1 then ps[0] else ps[0] + ";" + Join(ps[1..])
  }

  ghost predicate AreNumbers(ps: seq<string>) {
    forall p :: p in ps ==> IsNumber(p)
  }

  function Values(ps: seq<string>): (vs: seq<nat>)
    requires AreNumbers(ps)
  {
    if ps == [] then [] else [DecimalValue(ps[0])] + Values(ps[1..])
  }

  predicate IsIntroducer(intro: string) {
    intro == [ESC, '['] || intro == [CSI]
  }

  function Sequence(intro: string, ps: seq<string>, enable: bool): string {
    intro + "?" + Join(ps) + (if enable then "h" else "l")
  }

  function Cap(v: nat): U16 {
    if v <= U16_MAX then v else U16_MAX
  }

  function CapAll(vs: seq<nat>): seq<U16> {
    if vs == [] then [] else [Cap(vs[0])] + CapAll(vs[1..])
  }

  lemma {:induction false} ScanConcat(s: Scanner, a: string, b: string)
    ensures Scan(s, a + b) == Scan(Scan(s, a), b)
    decreases |a|
  {
    if a == "" {
      assert a + b == b;
    } else {
      assert (a + b)[1..] == a[1..] + b;
      ScanConcat(Next(s, a[0]), a[1..], b);
    }
  }

  /** Feeding pieces one after another is scanning their concatenation. */
  function ScanPieces(s: Scanner, pieces: seq<string>): Scanner
    decreases |pieces|
  {
    if pieces == [] then s else ScanPieces(Scan(s, pieces[0]), pieces[1..])
  }

  lemma {:induction false} ScanIgnoresBoundaries(s: Scanner, pieces: seq<string>)
    ensures ScanPieces(s, pieces) == Scan(s, Flatten(pieces))
    decreases |pieces|
  {
    if pieces != [] {
      ScanConcat(s, pieces[0], Flatten(pieces[1..]));
      ScanIgnoresBoundaries(Scan(s, pieces[0]), pieces[1..]);
    }
  }

  /** Saturating digit by digit is the same as capping the true value. */
  lemma {:induction false} ScanNumber(s: Scanner, digits: string)
    requires s.phase.PrivateParams? && s.current == Absent && IsNumber(digits)
    ensures Scan(s, digits) ==
            s.(current := if digits == "" then Absent else Number(Cap(DecimalValue(digits))))
    decreases |digits|
  {
    if digits != "" {
      var k := |digits| - 1;
      assert digits == digits[..k] + [digits[k]];
      ScanNumber(s, digits[..k]);
      ScanConcat(s, digits[..k], [digits[k]]);
      var mid := Scan(s, digits[..k]);
      assert Scan(mid, [digits[k]]) == Next(mid, digits[k]);
    }
  }

  /** The parameters collected for `p1;...;pn`, without a last empty one. */
  function Collected(ps: seq<string>): seq<U16>
    requires AreNumbers(ps)
  {
    if ps == [] then []
    else if |ps| == 1 then (if ps[0] == "" then [] else [Cap(DecimalValue(ps[0]))])
    else [Cap(DecimalValue(ps[0]))] + Collected(ps[1..])
  }

  lemma {:induction false} ScanSequenceBody(s: Scanner, ps: seq<string>, enable: bool)
    requires s.phase.PrivateParams? && s.current == Absent && AreNumbers(ps)
    ensures Scan(s, Join(ps) + (if enable then "h" else "l")) ==
            Scanner(Ground, [], Absent, ApplyAll(s.modes, s.params + Collected(ps), enable))
    decreases |ps|
  {
    var end := if enable then "h" else "l";
    if |ps| <= 1 {
      ScanLastNumber(s, Join(ps), enable);
    } else {
      hide Next, Scan;
      var rest := Join(ps[1..]) + end;
      assert Join(ps) + end == (ps[0] + ";") + rest;
      ScanConcat(s, ps[0] + ";", rest);
      ScanInnerNumber(s, ps[0]);
      var value := Cap(DecimalValue(ps[0]));
      ScanSequenceBody(s.(params := s.params + [value]), ps[1..], enable);
      Assoc(s.params, [value], Collected(ps[1..]));
    }
  }

  lemma ScanInnerNumber(s: Scanner, digits: string)
    requires s.phase.PrivateParams? && s.current == Absent && IsNumber(digits)
    ensures Scan(s, digits + ";") == s.(params := s.params + [Cap(DecimalValue(digits))])
  {
    ScanConcat(s, digits, ";");
    ScanNumber(s, digits);
    var mid := Scan(s, digits);
    assert Scan(mid, ";") == Next(mid, ';');
  }

  lemma ScanLastNumber(s: Scanner, digits: string, enable: bool)
    requires s.phase.PrivateParams? && s.current == Absent && IsNumber(digits)
    ensures var last := if digits == "" then [] else [Cap(DecimalValue(digits))];
            Scan(s, digits + (if enable then "h" else "l")) ==
            Scanner(Ground, [], Absent, ApplyAll(s.modes, s.params + last, enable))
  {
    var end := if enable then "h" else "l";
    ScanConcat(s, digits, end);
    ScanNumber(s, digits);
    var mid := Scan(s, digits);
    assert Scan(mid, end) == Next(mid, end[0]);
  }

  /** Capping neither creates nor loses a recognised mode, and an omitted parameter is none. */
  lemma {:induction false} CollectedActsLikeValues(modes: ModeSet, ps: seq<string>, enable: bool)
    requires AreNumbers(ps)
    ensures ApplyAll(modes, Collected(ps), enable) == ApplyAll(modes, Values(ps), enable)
    decreases |ps|
  {
    if ps != [] {
      var value := DecimalValue(ps[0]);
      assert Apply(modes, Cap(value), enable) == Apply(modes, value, enable);
      assert Values(ps)[1..] == Values(ps[1..]);
      if |ps| == 1 {
        assert ps[1..] == [];
      } else {
        assert Collected(ps)[1..] == Collected(ps[1..]);
        CollectedActsLikeValues(Apply(modes, value, enable), ps[1..], enable);
      }
    }
  }

  /**
    * Any private-mode sequence met in ordinary text, with digit strings of any length and cut into
    * feeds anywhere, leaves the scanner in ordinary text. The alternate screen is on or off as the
    * sequence says if some parameter's decimal value is 47, 1047 or 1049, and as it was otherwise.
    * The same holds of bracketed paste and 2004.
    */
  lemma SequenceSetsModes(s: Scanner, intro: string, ps: seq<string>, enable: bool, pieces: seq<string>)
    requires s.phase.Ground? && IsIntroducer(intro) && AreNumbers(ps)
    requires Flatten(pieces) == Sequence(intro, ps, enable)
    ensures ScanPieces(s, pieces) == Scanner(Ground, [], Absent, ScanPieces(s, pieces).modes)
    ensures SetBy(s.modes, Values(ps), enable, ScanPieces(s, pieces).modes)
  {
    ScanIgnoresBoundaries(s, pieces);
    var lead := intro + "?";
    var end := if enable then "h" else "l";
    assert Sequence(intro, ps, enable) == lead + (Join(ps) + end);
    ScanConcat(s, lead, Join(ps) + end);
    var open := Scanner(PrivateParams, [], Absent, s.modes);
    assert Scan(s, lead) == open by {
      ScanConcat(s, intro, "?");
      var mid := Scanner(Csi, [], Absent, s.modes);
      if intro == [CSI] {
        assert Scan(s, [CSI]) == Next(s, CSI) == mid;
      } else {
        ScanConcat(s, [ESC], "[");
        assert [ESC] + "[" == intro;
        assert Scan(s, [ESC]) == Next(s, ESC);
        assert Scan(Next(s, ESC), "[") == mid;
      }
      assert Scan(mid, "?") == open;
    }
    ScanSequenceBody(open, ps, enable);
    assert [] + Collected(ps) == Collected(ps);
    CollectedActsLikeValues(s.modes, ps, enable);
    ApplyAllSets(s.modes, Values(ps), enable);
  }

  // ----- What a sequence does to each mode -----

  ghost predicate SomeAlt(values: seq<nat>) {
    exists i :: 0 <= i < |values| && (values[i] == 47 || values[i] == 1047 || values[i] == 1049)
  }

  ghost predicate SomePaste(values: seq<nat>) {
    exists i :: 0 <= i < |values| && values[i] == 2004
  }

  /** The modes after a sequence: set or reset if some parameter names them, as they were otherwise. */
  ghost predicate SetBy(before: ModeSet, values: seq<nat>, enable: bool, after: ModeSet) {
    && after.altScreen == (if SomeAlt(values) then enable else before.altScreen)
    && after.bracketedPaste == (if SomePaste(values) then enable else before.bracketedPaste)
  }

  lemma {:induction false} ApplyAllSets(modes: ModeSet, values: seq<nat>, enable: bool)
    ensures SetBy(modes, values, enable, ApplyAll(modes, values, enable))
    decreases |values|
  {
    if values != [] {
      var rest := values[1..];
      ApplyAllSets(Apply(modes, values[0], enable), rest, enable);
      assert forall i :: 0 <= i < |rest| ==> rest[i] == values[i + 1];
      assert forall i :: 0 < i < |values| ==> values[i] == rest[i - 1];
    }
  }

  // ----- Nothing else changes a mode -----

  ghost predicate EndsWith(text: string, suffix: string) {
    |suffix| <= |text| && text[|text| - |suffix|..] == suffix
  }

  /** The scanner holds the parameters of the open parameter string `p1;...;pn`. */
  ghost predicate Holds(s: Scanner, ps: seq<string>) {
    && ps != [] && AreNumbers(ps)
    && var last := ps[|ps| - 1];
    && s.params == CapAll(Values(ps[..|ps| - 1]))
    && s.current == if last == "" then Absent else Number(Cap(DecimalValue(last)))
  }

  /** How the scanner's state reflects the end of the text it has read. */
  ghost predicate Reflects(s: Scanner, text: string, intro: string, ps: seq<string>) {
    match s.phase
    case Ground => true
    case Escape => EndsWith(text, [ESC])
    case Csi => IsIntroducer(intro) && EndsWith(text, intro)
    case PrivateParams => IsIntroducer(intro) && EndsWith(text, intro + "?" + Join(ps)) && Holds(s, ps)
  }

  lemma Extend(text: string, suffix: string, c: char)
    requires EndsWith(text, suffix)
    ensures EndsWith(text + [c], suffix + [c])
  {
    var t := text + [c];
    assert t[|t| - |suffix| - 1..] == text[|text| - |suffix|..] + [c];
  }

  lemma {:induction false} JoinDigit(ps: seq<string>, c: char)
    requires ps != []
    ensures Join(ps[..|ps| - 1] + [ps[|ps| - 1] + [c]]) == Join(ps) + [c]
    decreases |ps|
  {
    var qs := ps[..|ps| - 1] + [ps[|ps| - 1] + [c]];
    if |ps| > 1 {
      assert qs[1..] == ps[1..][..|ps| - 2] + [ps[1..][|ps| - 2] + [c]];
      JoinDigit(ps[1..], c);
    }
  }

  lemma {:induction false} JoinSemicolon(ps: seq<string>)
    requires ps != []
    ensures Join(ps + [""]) == Join(ps) + ";"
    decreases |ps|
  {
    if |ps| == 1 {
      assert (ps + [""])[1..] == [""];
    } else {
      assert (ps + [""])[1..] == ps[1..] + [""];
      JoinSemicolon(ps[1..]);
    }
  }

  lemma {:induction false} ValuesAppend(ps: seq<string>, p: string)
    requires AreNumbers(ps) && IsNumber(p)
    ensures AreNumbers(ps + [p])
    ensures CapAll(Values(ps + [p])) == CapAll(Values(ps)) + [Cap(DecimalValue(p))]
    decreases |ps|
  {
    if ps == [] {
      assert ps + [p] == [p];
    } else {
      assert (ps + [p])[1..] == ps[1..] + [p];
      ValuesAppend(ps[1..], p);
      var vs, ws := Values(ps), Values(ps + [p]);
      assert vs[1..] == Values(ps[1..]) && ws[1..] == Values(ps[1..] + [p]);
    }
  }

  lemma {:induction false} CollectedFromBack(ps: seq<string>)
    requires ps != [] && AreNumbers(ps)
    ensures var last := ps[|ps| - 1];
            Collected(ps) == CapAll(Values(ps[..|ps| - 1])) +
                             (if last == "" then [] else [Cap(DecimalValue(last))])
    decreases |ps|
  {
    if |ps| > 1 {
      CollectedFromBack(ps[1..]);
      assert ps[1..][..|ps| - 2] == ps[..|ps| - 1][1..];
      assert Values(ps[..|ps| - 1])[1..] == Values(ps[1..][..|ps| - 2]);
    }
  }

  lemma HoldsDigit(s: Scanner, ps: seq<string>, c: char) returns (qs: seq<string>)
    requires s.phase.PrivateParams? && Holds(s, ps) && IsDigit(c)
    ensures Holds(Next(s, c), qs) && Join(qs) == Join(ps) + [c]
  {
    var k := |ps| - 1;
    qs := ps[..k] + [ps[k] + [c]];
    JoinDigit(ps, c);
    assert qs[..k] == ps[..k];
    var last := ps[k] + [c];
    assert ps[k] in ps && IsNumber(ps[k]);
    assert last[..|ps[k]|] == ps[k];
    assert IsNumber(last);
    assert forall p :: p in qs ==> p in ps[..k] || p == last;
    assert DecimalValue(last) == 10 * DecimalValue(ps[k]) + DigitValue(c);
  }

  lemma HoldsSemicolon(s: Scanner, ps: seq<string>) returns (qs: seq<string>)
    requires s.phase.PrivateParams? && Holds(s, ps)
    ensures Holds(Next(s, ';'), qs) && Join(qs) == Join(ps) + ";"
  {
    var k := |ps| - 1;
    qs := ps + [""];
    JoinSemicolon(ps);
    ValuesAppend(ps[..k], ps[k]);
    assert ps[..k] + [ps[k]] == ps == qs[..|ps|];
  }

  lemma NextReflects(s: Scanner, text: string, intro: string, ps: seq<string>, c: char)
    returns (intro': string, ps': seq<string>)
    requires Reflects(s, text, intro, ps)
    ensures Reflects(Next(s, c), text + [c], intro', ps')
  {
    hide Holds, Join;
    intro', ps' := intro, ps;
    match s.phase {
      case Ground =>
        intro' := [CSI];
      case Escape =>
        intro' := [ESC, '['];
        Extend(text, [ESC], c);
        assert c == '[' ==> [ESC] + [c] == intro';
      case Csi =>
        if c == '?' {
          ps' := [""];
          StartsList(s, text, intro);
        }
      case PrivateParams =>
        if IsDigit(c) || c == ';' {
          ps' := OpenReflects(s, text, intro, ps, c);
        }
    }
  }

  lemma StartsList(s: Scanner, text: string, intro: string)
    requires s.phase.Csi? && EndsWith(text, intro)
    ensures EndsWith(text + "?", intro + "?" + Join([""])) && Holds(Next(s, '?'), [""])
  {
    Extend(text, intro, '?');
    assert intro + "?" == intro + "?" + Join([""]);
  }

  lemma OpenReflects(s: Scanner, text: string, intro: string, ps: seq<string>, c: char)
    returns (ps': seq<string>)
    requires s.phase.PrivateParams? && Reflects(s, text, intro, ps) && (IsDigit(c) || c == ';')
    ensures EndsWith(text + [c], intro + "?" + Join(ps')) && Holds(Next(s, c), ps')
  {
    hide Holds, Next, Join;
    var open := intro + "?" + Join(ps);
    Extend(text, open, c);
    if c == ';' {
      ps' := HoldsSemicolon(s, ps);
    } else {
      ps' := HoldsDigit(s, ps, c);
    }
    assert open + [c] == intro + "?" + Join(ps');
  }

  lemma {:induction false} ScanReflects(text: string) returns (intro: string, ps: seq<string>)
    ensures Reflects(Scan(FRESH, text), text, intro, ps)
    decreases |text|
  {
    if text == "" {
      intro, ps := "", [];
    } else {
      var k := |text| - 1;
      intro, ps := ScanReflects(text[..k]);
      ScanConcat(FRESH, text[..k], [text[k]]);
      assert text[..k] + [text[k]] == text;
      var s := Scan(FRESH, text[..k]);
      assert Scan(s, [text[k]]) == Next(s, text[k]);
      intro, ps := NextReflects(s, text[..k], intro, ps, text[k]);
    }
  }

  /**
    * Whatever the child has written so far, a character changes the modes only when it completes a
    * private-mode sequence, and then the change is that sequence's effect.
    */
  lemma OnlySequencesChangeModes(text: string, c: char) returns (intro: string, ps: seq<string>)
    requires Scan(FRESH, text + [c]).modes != Scan(FRESH, text).modes
    ensures IsIntroducer(intro) && AreNumbers(ps)
    ensures EndsWith(text + [c], Sequence(intro, ps, c == 'h'))
    ensures SetBy(Scan(FRESH, text).modes, Values(ps), c == 'h', Scan(FRESH, text + [c]).modes)
  {
    var s := Scan(FRESH, text);
    ScanConcat(FRESH, text, [c]);
    assert Scan(s, [c]) == Next(s, c);
    intro, ps := ScanReflects(text);
    assert s.phase.PrivateParams? && (c == 'h' || c == 'l');
    var open := intro + "?" + Join(ps);
    Extend(text, open, c);
    assert open + [c] == Sequence(intro, ps, c == 'h');
    CollectedFromBack(ps);
    CollectedActsLikeValues(s.modes, ps, c == 'h');
    ApplyAllSets(s.modes, Values(ps), c == 'h');
  }
}
