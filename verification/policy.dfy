/** Which MIME types may cross the clipboard, and which stored payload serves a request. */
module Policy {
  import opened Options
  import opened Text
  import Utf8

  type Bytes = seq<Utf8.Byte>

  const TEXT_UTF8: string := "text/plain;charset=utf-8"
  const TEXT_PLAIN: string := "text/plain"
  const TEXT_HTML: string := "text/html"
  const IMAGE_PNG: string := "image/png"

  const ALLOWED_MIME_TYPES: seq<string> := [TEXT_UTF8, TEXT_PLAIN, TEXT_HTML, IMAGE_PNG]

  const MATERIALIZE_MAX_BYTES: nat := 8388608

  function NormalizeMime(mime: string): string {
    LowerAll(Join(Map(Trim, Split(Trim(mime), ';')), ';'))
  }

  predicate IsMimeAllowed(mime: string) {
    NormalizeMime(mime) in ALLOWED_MIME_TYPES
  }

  /** Normalising again changes nothing, so a normalised name is judged like the original. */
  lemma NormalizeIsIdempotent(mime: string)
    ensures NormalizeMime(NormalizeMime(mime)) == NormalizeMime(mime)
    ensures IsMimeAllowed(NormalizeMime(mime)) == IsMimeAllowed(mime)
  {
    hide Trim, Split, Join, IsTrimmed;
    var raw := Split(Trim(mime), ';');
    var pieces := Map(Trim, raw);
    var lowered := Map(LowerAll, pieces);
    SplitHasNoSeparator(Trim(mime), ';');
    forall p | p in lowered ensures ';' !in p && IsTrimmed(p) && Trim(p) == p && LowerAll(p) == p {
      var i :| 0 <= i < |lowered| && lowered[i] == p;
      assert raw[i] in raw;
      TrimSpec(raw[i]);
      LowerKeepsTrim(pieces[i]);
      TrimSpec(p);
    }
    var n := NormalizeMime(mime);
    LowerJoin(pieces);
    assert n == Join(lowered, ';');
    SplitJoin(lowered, ';');
    JoinTrimmed(lowered, ';');
    TrimSpec(n);
    assert Map(Trim, lowered) == lowered;
    LowerJoin(lowered);
    assert Map(LowerAll, lowered) == lowered;
  }

  /** Every name in the list is normal, so it is allowed under itself. */
  lemma ListedIsAllowed()
    ensures forall mime :: mime in ALLOWED_MIME_TYPES ==> IsMimeAllowed(mime)
    ensures IsMimeAllowed(TEXT_UTF8) && IsMimeAllowed(TEXT_PLAIN) && IsMimeAllowed(TEXT_HTML) && IsMimeAllowed(IMAGE_PNG)
  {
    hide NormalizeMime, IsPlainPiece;
    TextPlainPiece();
    TextHtmlPiece();
    ImagePngPiece();
    OnePieceIsAllowed(TEXT_PLAIN);
    OnePieceIsAllowed(TEXT_HTML);
    OnePieceIsAllowed(IMAGE_PNG);
    TextUtf8IsAllowed();
  }

  /** A trimmed lower-case name without a semicolon. */
  ghost predicate IsPlainPiece(p: string) {
    IsTrimmed(p) && ';' !in p && LowerAll(p) == p
  }

  lemma TextPlainPiece()
    ensures IsPlainPiece("text/plain")
  {
  }

  lemma TextHtmlPiece()
    ensures IsPlainPiece("text/html")
  {
  }

  lemma ImagePngPiece()
    ensures IsPlainPiece("image/png")
  {
  }

  lemma CharsetPiece()
    ensures IsPlainPiece("charset=utf-8")
  {
  }

  lemma Utf8IsJoined()
    ensures "text/plain" + ";" + "charset=utf-8" == TEXT_UTF8
  {
  }

  lemma OnePieceIsAllowed(mime: string)
    requires IsPlainPiece(mime) && mime in ALLOWED_MIME_TYPES
    ensures IsMimeAllowed(mime)
  {
    hide NormalizeMime, IsPlainPiece;
    Normal([mime]);
    assert Join([mime], ';') == mime;
  }

  lemma TextUtf8IsAllowed()
    ensures IsMimeAllowed(TEXT_UTF8)
  {
    hide NormalizeMime, IsPlainPiece;
    var pieces := ["text/plain", "charset=utf-8"];
    TextPlainPiece();
    CharsetPiece();
    Utf8IsJoined();
    assert pieces[1..] == ["charset=utf-8"];
    Normal(pieces);
  }

  /** Lower-case trimmed pieces joined by semicolons are their own normal form. */
  lemma Normal(pieces: seq<string>)
    requires pieces != []
    requires forall p :: p in pieces ==> IsPlainPiece(p)
    ensures NormalizeMime(Join(pieces, ';')) == Join(pieces, ';')
  {
    hide Trim, Split, Join, IsTrimmed;
    SplitJoin(pieces, ';');
    JoinTrimmed(pieces, ';');
    TrimSpec(Join(pieces, ';'));
    forall i | 0 <= i < |pieces| ensures Trim(pieces[i]) == pieces[i] && LowerAll(pieces[i]) == pieces[i] {
      assert pieces[i] in pieces;
      TrimSpec(pieces[i]);
    }
    assert Map(Trim, pieces) == pieces;
    LowerJoin(pieces);
    assert Map(LowerAll, pieces) == pieces;
  }

  // ----- Which spellings are allowed -----

  /** The same letters up to ASCII case. */
  ghost predicate SameLetters(text: string, word: string) {
    && |text| == |word|
    && forall k :: 0 <= k < |word| ==>
         text[k] == word[k] || ('A' <= text[k] <= 'Z' && text[k] as int + 32 == word[k] as int)
  }

  ghost predicate SpelledAt(text: string, word: string, i: nat, j: nat) {
    i <= j <= |text| && IsBlank(text[..i]) && IsBlank(text[j..]) && SameLetters(text[i..j], word)
  }

  /** The word in any letter case, with any white space around it. */
  ghost predicate Spells(text: string, word: string) {
    exists i: nat, j: nat :: SpelledAt(text, word, i, j)
  }

  /** Two words with one semicolon between them. */
  ghost predicate SpellsBoth(text: string, first: string, second: string) {
    exists cut :: 0 <= cut < |text| && text[cut] == ';' && Spells(text[..cut], first) && Spells(text[cut + 1..], second)
  }

  /**
    * Exactly the four listed types are allowed, in any letter case and with white space around the
    * type and around the parameter. Any other parameter, or one more, is rejected.
    */
  lemma AllowedIff(mime: string)
    ensures IsMimeAllowed(mime) <==>
            || Spells(mime, "text/plain")
            || Spells(mime, "text/html")
            || Spells(mime, "image/png")
            || SpellsBoth(mime, "text/plain", "charset=utf-8")
  {
    hide IsMimeAllowed, Spells, SpellsBoth, IsPlainPiece;
    TextPlainPiece();
    TextHtmlPiece();
    ImagePngPiece();
    CharsetPiece();
    Utf8IsJoined();
    NormalIs(mime, "text/plain");
    NormalIs(mime, "text/html");
    NormalIs(mime, "image/png");
    NormalIsBoth(mime, "text/plain", "charset=utf-8");
    assert IsMimeAllowed(mime) <==> NormalizeMime(mime) in ALLOWED_MIME_TYPES by {
      AllowedMeansListed(mime);
    }
  }

  lemma AllowedMeansListed(mime: string)
    ensures IsMimeAllowed(mime) <==> NormalizeMime(mime) in ALLOWED_MIME_TYPES
  {
  }

  lemma LowerIff(text: string, word: string)
    requires LowerAll(word) == word
    ensures LowerAll(text) == word <==> SameLetters(text, word)
  {
    if SameLetters(text, word) {
      assert forall k :: 0 <= k < |word| ==> Lower(word[k]) == word[k];
      assert forall k :: 0 <= k < |word| ==> Lower(text[k]) == word[k];
    }
  }

  lemma SpellsFrom(a: string, mid: string, b: string, word: string)
    requires IsBlank(a) && IsBlank(b) && SameLetters(mid, word)
    ensures Spells(a + mid + b, word)
  {
    hide IsBlank, SameLetters;
    var text := a + mid + b;
    assert text[..|a|] == a && text[|a|..|a| + |mid|] == mid && text[|a| + |mid|..] == b;
    assert SpelledAt(text, word, |a|, |a| + |mid|);
  }

  lemma MiddleOf(text: string, word: string) returns (a: string, mid: string, b: string)
    requires IsPlainPiece(word) && word != "" && Spells(text, word)
    ensures text == a + mid + b && IsBlank(a) && IsBlank(b)
    ensures SameLetters(mid, word) && LowerAll(mid) == word && mid != "" && IsTrimmed(mid) && ';' !in mid
  {
    hide IsBlank, SameLetters, IsTrimmed;
    var i: nat, j: nat :| SpelledAt(text, word, i, j);
    a, mid, b := text[..i], text[i..j], text[j..];
    LowerIff(mid, word);
    LowerKeepsTrim(mid);
  }

  /** Trimming and lowering a piece yields the word exactly when the piece spells it. */
  lemma PieceIff(text: string, word: string)
    requires IsPlainPiece(word) && word != ""
    ensures LowerAll(Trim(text)) == word <==> Spells(text, word)
  {
    hide Trim, IsBlank, SameLetters, IsTrimmed, Spells;
    if LowerAll(Trim(text)) == word {
      var i, j := TrimCut(text);
      LowerIff(text[i..j], word);
      SpellsFrom(text[..i], text[i..j], text[j..], word);
      assert text == text[..i] + text[i..j] + text[j..];
    }
    if Spells(text, word) {
      var a, mid, b := MiddleOf(text, word);
      TrimIs(a, mid, b);
    }
  }

  /** A piece that spells a plain word has no semicolon in it. */
  lemma SpelledHasNoSemicolon(text: string, word: string)
    requires IsPlainPiece(word) && word != "" && Spells(text, word)
    ensures ';' !in text
  {
    hide IsPlainPiece, Spells, SameLetters, IsTrimmed;
    var a, mid, b := MiddleOf(text, word);
    assert ';' !in a && ';' !in b;
  }

  lemma TrimTwice(s: string)
    ensures Trim(Trim(s)) == Trim(s)
  {
    hide Trim;
    TrimSpec(s);
    TrimSpec(Trim(s));
  }

  /** The pieces of a name, lowered and joined, are its normal form. */
  lemma NormalPieces(mime: string) returns (raw: seq<string>)
    ensures raw == Split(Trim(mime), ';') && raw != [] && forall p :: p in raw ==> ';' !in p
    ensures Join(raw, ';') == Trim(mime)
    ensures NormalizeMime(mime) == Join(Map(LowerAll, Map(Trim, raw)), ';')
    ensures forall p :: p in Map(LowerAll, Map(Trim, raw)) ==> ';' !in p
  {
    hide Trim, Split, Join;
    raw := Split(Trim(mime), ';');
    SplitHasNoSeparator(Trim(mime), ';');
    JoinSplit(Trim(mime), ';');
    LowerJoin(Map(Trim, raw));
    var lowered := Map(LowerAll, Map(Trim, raw));
    forall p | p in lowered ensures ';' !in p {
      var i :| 0 <= i < |lowered| && lowered[i] == p;
      assert raw[i] in raw;
      TrimSpec(raw[i]);
      LowerKeepsTrim(Trim(raw[i]));
    }
  }

  lemma NormalIs(mime: string, word: string)
    requires IsPlainPiece(word) && word != ""
    ensures NormalizeMime(mime) == word <==> Spells(mime, word)
  {
    hide Trim, Split, NormalizeMime, Spells;
    PieceIff(mime, word);
    TrimTwice(mime);
    var raw := NormalPieces(mime);
    var lowered := Map(LowerAll, Map(Trim, raw));
    if NormalizeMime(mime) == word {
      SplitJoin(lowered, ';');
      SplitJoin([word], ';');
      assert lowered == [word];
      assert raw == [raw[0]] && raw[0] == Trim(mime);
    }
    if Spells(mime, word) {
      LowerKeepsTrim(Trim(mime));
      SplitJoin([Trim(mime)], ';');
      assert Join([Trim(mime)], ';') == Trim(mime);
      assert raw == [Trim(mime)];
      assert lowered == [word];
    }
  }

  lemma NormalIsBoth(mime: string, first: string, second: string)
    requires IsPlainPiece(first) && IsPlainPiece(second) && first != "" && second != ""
    ensures NormalizeMime(mime) == first + ";" + second <==> SpellsBoth(mime, first, second)
  {
    hide NormalizeMime, SpellsBoth, IsPlainPiece;
    if NormalizeMime(mime) == first + ";" + second {
      NormalSpellsBoth(mime, first, second);
    }
    if SpellsBoth(mime, first, second) {
      BothIsNormal(mime, first, second);
    }
  }

  lemma NormalSpellsBoth(mime: string, first: string, second: string)
    requires IsPlainPiece(first) && IsPlainPiece(second) && first != "" && second != ""
    requires NormalizeMime(mime) == first + ";" + second
    ensures SpellsBoth(mime, first, second)
  {
    hide Trim, Split, NormalizeMime, Spells, IsTrimmed;
    var raw := NormalPieces(mime);
    var lowered := Map(LowerAll, Map(Trim, raw));
    var words := [first, second];
    JoinTwo(first, second);
    SplitJoin(lowered, ';');
    SplitJoin(words, ';');
    assert lowered == words;
    assert raw == [raw[0], raw[1]];
    JoinTwo(raw[0], raw[1]);
    assert lowered[0] == LowerAll(Trim(raw[0])) && lowered[1] == LowerAll(Trim(raw[1]));
    PieceIff(raw[0], first);
    PieceIff(raw[1], second);
    var i, j := TrimCut(mime);
    var cut := i + |raw[0]|;
    assert mime[i..j] == raw[0] + ";" + raw[1];
    assert mime[cut] == mime[i..j][|raw[0]|];
    assert mime[..cut] == mime[..i] + raw[0];
    assert mime[cut + 1..] == raw[1] + mime[j..];
    WhiteAround(mime[..i], raw[0], "", first);
    WhiteAround("", raw[1], mime[j..], second);
    assert mime[..i] + raw[0] + "" == mime[..cut];
    assert "" + raw[1] + mime[j..] == mime[cut + 1..];
  }

  lemma JoinTwo(a: string, b: string)
    ensures Join([a, b], ';') == a + ";" + b
  {
    assert [a, b][1..] == [b];
  }

  lemma WhiteAround(a: string, text: string, b: string, word: string)
    requires IsPlainPiece(word) && word != "" && IsBlank(a) && IsBlank(b) && Spells(text, word)
    ensures Spells(a + text + b, word)
  {
    hide IsPlainPiece, Spells, SameLetters, IsTrimmed;
    var c, mid, d := MiddleOf(text, word);
    SpellsFrom(a + c, mid, d + b, word);
    assert a + text + b == a + c + mid + (d + b);
  }

  lemma BothIsNormal(mime: string, first: string, second: string)
    requires IsPlainPiece(first) && IsPlainPiece(second) && first != "" && second != ""
    requires SpellsBoth(mime, first, second)
    ensures NormalizeMime(mime) == first + ";" + second
  {
    hide Trim, Split, NormalizeMime, Spells, IsTrimmed, Join;
    var cut :| 0 <= cut < |mime| && mime[cut] == ';' && Spells(mime[..cut], first) && Spells(mime[cut + 1..], second);
    var a, x := LeftOf(mime[..cut], first);
    var y, b := RightOf(mime[cut + 1..], second);
    var core := x + ";" + y;
    assert mime == a + core + b;
    CoreIsTrimmed(x, y);
    TrimIs(a, core, b);
    var raw := NormalPieces(mime);
    JoinTwo(x, y);
    SpelledHasNoSemicolon(x, first);
    SpelledHasNoSemicolon(y, second);
    SplitJoin([x, y], ';');
    assert raw == [x, y];
    PieceIff(x, first);
    PieceIff(y, second);
    assert Map(LowerAll, Map(Trim, raw)) == [first, second];
    JoinTwo(first, second);
  }

  lemma CoreIsTrimmed(x: string, y: string)
    requires x != "" && y != "" && !IsWhite(x[0]) && !IsWhite(y[|y| - 1])
    ensures IsTrimmed(x + ";" + y)
  {
  }

  /** White space before the word, and the rest, which starts with the word. */
  lemma LeftOf(text: string, word: string) returns (a: string, x: string)
    requires IsPlainPiece(word) && word != "" && Spells(text, word)
    ensures text == a + x && IsBlank(a) && Spells(x, word) && x != "" && !IsWhite(x[0])
  {
    hide IsPlainPiece, Spells, SameLetters, IsBlank;
    var c, mid, b := MiddleOf(text, word);
    a, x := c, mid + b;
    NothingIsBlank();
    SpellsFrom("", mid, b, word);
    assert "" + mid + b == x && x[0] == mid[0];
  }

  lemma RightOf(text: string, word: string) returns (y: string, b: string)
    requires IsPlainPiece(word) && word != "" && Spells(text, word)
    ensures text == y + b && IsBlank(b) && Spells(y, word) && y != "" && !IsWhite(y[|y| - 1])
  {
    hide IsPlainPiece, Spells, SameLetters, IsBlank;
    var a, mid, d := MiddleOf(text, word);
    y, b := a + mid, d;
    NothingIsBlank();
    SpellsFrom(a, mid, "", word);
    assert a + mid + "" == y && y[|y| - 1] == mid[|mid| - 1];
  }

  lemma NothingIsBlank()
    ensures IsBlank("")
  {
  }

  // ----- Payloads -----

  type Data = map<string, Bytes>

  predicate IsTextPlain(mime: string) {
    mime == TEXT_PLAIN || mime == TEXT_UTF8
  }

  /** `html` is the external conversion of an HTML document to plain text. */
  function CompatiblePayload(data: Data, requested: string, html: Bytes -> Option<Bytes>): Option<Bytes> {
    if requested in data then Some(data[requested])
    else if !IsTextPlain(requested) then None
    else if TEXT_UTF8 in data then Some(data[TEXT_UTF8])
    else if TEXT_PLAIN in data then Some(data[TEXT_PLAIN])
    else if TEXT_HTML in data then html(data[TEXT_HTML])
    else None
  }

  /** All names allowed and all payloads within the cap. */
  ghost predicate Clean(data: Data) {
    forall m :: m in data ==> IsMimeAllowed(m) && |data[m]| <= MATERIALIZE_MAX_BYTES
  }

  /**
    * From clean data nothing is served under a name the policy rejects, even though the request itself is not checked;
    * and what is served is stored under that name, or for plain text is stored text, or converted HTML.
    */
  lemma ServedIsAllowed(data: Data, requested: string, html: Bytes -> Option<Bytes>)
    requires Clean(data)
    ensures CompatiblePayload(data, requested, html).Some? ==> IsMimeAllowed(requested)
    ensures CompatiblePayload(data, requested, html).Some? ==>
            var bytes := CompatiblePayload(data, requested, html).value;
            || (requested in data && bytes == data[requested])
            || (IsTextPlain(requested) && TEXT_UTF8 in data && bytes == data[TEXT_UTF8])
            || (IsTextPlain(requested) && TEXT_PLAIN in data && bytes == data[TEXT_PLAIN])
            || (IsTextPlain(requested) && TEXT_HTML in data && html(data[TEXT_HTML]) == Some(bytes))
  {
    hide IsMimeAllowed;
    ListedIsAllowed();
  }

  /**
    * A stored name is served verbatim. A request for plain text is otherwise answered from stored
    * plain text, the UTF-8 form first, and from converted HTML only where no plain text is stored.
    * Nothing else is answered.
    */
  lemma PayloadPrecedence(data: Data, requested: string, html: Bytes -> Option<Bytes>)
    ensures requested in data ==> CompatiblePayload(data, requested, html) == Some(data[requested])
    ensures requested !in data && requested in ["text/plain", "text/plain;charset=utf-8"] ==>
            CompatiblePayload(data, requested, html) ==
            if "text/plain;charset=utf-8" in data then Some(data["text/plain;charset=utf-8"])
            else if "text/plain" in data then Some(data["text/plain"])
            else if "text/html" in data then html(data["text/html"])
            else None
    ensures CompatiblePayload(data, requested, html).Some? <==>
            || requested in data
            || (&& requested in ["text/plain", "text/plain;charset=utf-8"]
                && (|| "text/plain" in data
                    || "text/plain;charset=utf-8" in data
                    || ("text/html" in data && html(data["text/html"]).Some?)))
  {
  }
}
