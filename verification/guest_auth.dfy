/** The canonical transcript over which guest-control authentication proofs are computed. */
module GuestAuth {
  import opened Options
  import opened Utf8

  type Bytes = seq<Byte>

  const U32: nat := 0x1_0000_0000
  type Word = n: nat | n < U32

  const NONCE_LEN: nat := 32
  type Nonce = s: Bytes | |s| == 32 witness seq(32, _ => 0)

  datatype Role = Host | Guest
  datatype Direction = HostToGuest
  datatype Purpose = GuestControlAuthV1

  datatype Transcript = Transcript(
    role: Role, direction: Direction, purpose: Purpose, vmId: string,
    protocolVersion: Word, guestControlPort: Word, peerCid: Option<Word>,
    hostNonce: Nonce, guestNonce: Nonce, guestBootId: string, capabilitiesHash: Option<Bytes>)

  function RoleLabel(r: Role): string {
    match r
    case Host => "host-proof"
    case Guest => "guest-proof"
  }

  const DIRECTION_LABEL: string := "host-to-guest"
  const PURPOSE_LABEL: string := "guest-control-auth-v1"

  /** `to_be_bytes` of a 32-bit value. */
  function BigEndian(v: Word): (s: Bytes)
    ensures |s| == 4
  {
    var q := v / 256;
    var p := q / 256;
    [p / 256, p % 256, q % 256, v % 256]
  }

  function FromBigEndian(s: Bytes): Word
    requires |s| == 4
  {
    var a: int, b: int, c: int, d: int := s[0], s[1], s[2], s[3];
    ((a * 256 + b) * 256 + c) * 256 + d
  }

  // ----- Encoding -----

  datatype Field = Field(tag: Byte, value: Bytes)

  /** Tag, length cast to 32 bits, value. */
  function EncodeField(f: Field): Bytes {
    [f.tag] + BigEndian(|f.value| % U32) + f.value
  }

  function EncodeFields(fs: seq<Field>): Bytes {
    if fs == [] then [] else EncodeFields(fs[..|fs| - 1]) + EncodeField(fs[|fs| - 1])
  }

  function Before(t: Transcript): seq<Field> {
    [Field(1, EncodeText("guest-control-auth-v1")),
     Field(2, EncodeText(RoleLabel(t.role))),
     Field(3, EncodeText(DIRECTION_LABEL)),
     Field(4, EncodeText(PURPOSE_LABEL)),
     Field(5, EncodeText(t.vmId)),
     Field(6, BigEndian(t.protocolVersion)),
     Field(7, BigEndian(t.guestControlPort))]
  }

  function PeerField(t: Transcript): seq<Field> {
    if t.peerCid.Some? then [Field(8, BigEndian(t.peerCid.value))] else []
  }

  function After(t: Transcript): seq<Field> {
    [Field(10, t.hostNonce), Field(11, t.guestNonce), Field(12, EncodeText(t.guestBootId))]
  }

  function HashField(t: Transcript): seq<Field> {
    if t.capabilitiesHash.Some? then [Field(13, t.capabilitiesHash.value)] else []
  }

  function FieldsOf(t: Transcript): seq<Field> {
    Before(t) + PeerField(t) + After(t) + HashField(t)
  }

  method PushField(out: Bytes, tag: Byte, value: Bytes) returns (grown: Bytes)
    ensures grown == out + EncodeField(Field(tag, value))
  {
    grown := out + [tag];
    grown := grown + BigEndian(|value| % U32);
    grown := grown + value;
  }

  method EncodeTranscript(t: Transcript) returns (out: Bytes)
    ensures out == EncodeFields(FieldsOf(t))
  {
    hide EncodeFields, EncodeField, EncodeText, BigEndian;
    ghost var fs: seq<Field> := [];
    EncodeNothing();
    out := PushField([], 1, EncodeText("guest-control-auth-v1"));
    fs := Pushed(fs, 1, EncodeText("guest-control-auth-v1"));
    out := PushField(out, 2, EncodeText(RoleLabel(t.role)));
    fs := Pushed(fs, 2, EncodeText(RoleLabel(t.role)));
    out := PushField(out, 3, EncodeText(DIRECTION_LABEL));
    fs := Pushed(fs, 3, EncodeText(DIRECTION_LABEL));
    out := PushField(out, 4, EncodeText(PURPOSE_LABEL));
    fs := Pushed(fs, 4, EncodeText(PURPOSE_LABEL));
    out := PushField(out, 5, EncodeText(t.vmId));
    fs := Pushed(fs, 5, EncodeText(t.vmId));
    out := PushField(out, 6, BigEndian(t.protocolVersion));
    fs := Pushed(fs, 6, BigEndian(t.protocolVersion));
    out := PushField(out, 7, BigEndian(t.guestControlPort));
    fs := Pushed(fs, 7, BigEndian(t.guestControlPort));
    assert fs == Before(t);
    if t.peerCid.Some? {
      out := PushField(out, 8, BigEndian(t.peerCid.value));
      fs := Pushed(fs, 8, BigEndian(t.peerCid.value));
    }
    assert fs == Before(t) + PeerField(t);
    out := PushField(out, 10, t.hostNonce);
    fs := Pushed(fs, 10, t.hostNonce);
    out := PushField(out, 11, t.guestNonce);
    fs := Pushed(fs, 11, t.guestNonce);
    out := PushField(out, 12, EncodeText(t.guestBootId));
    fs := Pushed(fs, 12, EncodeText(t.guestBootId));
    assert fs == Before(t) + PeerField(t) + After(t);
    if t.capabilitiesHash.Some? {
      out := PushField(out, 13, t.capabilitiesHash.value);
      fs := Pushed(fs, 13, t.capabilitiesHash.value);
    }
    assert fs == FieldsOf(t);
  }

  lemma EncodeNothing()
    ensures EncodeFields([]) == []
  {
  }

  lemma Pushed(fs: seq<Field>, tag: Byte, value: Bytes) returns (grown: seq<Field>)
    ensures grown == fs + [Field(tag, value)]
    ensures EncodeFields(grown) == EncodeFields(fs) + EncodeField(Field(tag, value))
  {
    grown := fs + [Field(tag, value)];
    assert grown[..|fs|] == fs;
  }

  // ----- Reference: a decoder -----

  /** Split a byte string into tag-length-value fields. */
  function ParseFields(s: Bytes): Option<seq<Field>>
    decreases |s|
  {
    if s == [] then Some([])
    else if |s| < 5 then None
    else
      var n := FromBigEndian(s[1..5]);
      if |s| < 5 + n then None
      else match ParseFields(s[5 + n..])
        case Some(rest) => Some([Field(s[0], s[5..5 + n])] + rest)
        case None => None
  }

  function ParseText(b: Bytes): Option<string> {
    var t := Decode(b).outs;
    if EncodeText(t) == b then Some(t) else None
  }

  function ParseWord(b: Bytes): Option<Word> {
    if |b| == 4 then Some(FromBigEndian(b)) else None
  }

  function ParseRole(b: Bytes): Option<Role> {
    if b == EncodeText(RoleLabel(Host)) then Some(Host)
    else if b == EncodeText(RoleLabel(Guest)) then Some(Guest)
    else None
  }

  /** The first seven fields are the fixed ones, with readable values. */
  predicate StartsRight(fs: seq<Field>)
    requires |fs| >= 7
  {
    && fs[0] == Field(1, EncodeText("guest-control-auth-v1"))
    && fs[1].tag == 2 && ParseRole(fs[1].value).Some?
    && fs[2] == Field(3, EncodeText(DIRECTION_LABEL))
    && fs[3] == Field(4, EncodeText(PURPOSE_LABEL))
    && fs[4].tag == 5 && ParseText(fs[4].value).Some?
    && fs[5].tag == 6 && ParseWord(fs[5].value).Some?
    && fs[6].tag == 7 && ParseWord(fs[6].value).Some?
  }

  /** Nonces, boot id and perhaps a hash are all that is left. */
  predicate EndsRight(fs: seq<Field>) {
    && (|fs| == 3 || (|fs| == 4 && fs[3].tag == 13))
    && fs[0].tag == 10 && |fs[0].value| == NONCE_LEN
    && fs[1].tag == 11 && |fs[1].value| == NONCE_LEN
    && fs[2].tag == 12 && ParseText(fs[2].value).Some?
  }

  function Assemble(fs: seq<Field>): Option<Transcript> {
    if |fs| < 8 || !StartsRight(fs) then None
    else
      var peer := fs[7].tag == 8;
      var rest := if peer then fs[8..] else fs[7..];
      if (peer && ParseWord(fs[7].value).None?) || !EndsRight(rest) then None
      else
        Some(Transcript(ParseRole(fs[1].value).value, HostToGuest, GuestControlAuthV1, ParseText(fs[4].value).value,
                        ParseWord(fs[5].value).value, ParseWord(fs[6].value).value,
                        if peer then ParseWord(fs[7].value) else None,
                        rest[0].value, rest[1].value, ParseText(rest[2].value).value,
                        if |rest| == 4 then Some(rest[3].value) else None))
  }

  function DecodeTranscript(s: Bytes): Option<Transcript> {
    match ParseFields(s)
    case Some(fs) => Assemble(fs)
    case None => None
  }

  // ----- Inverses of the parts -----

  lemma BigEndianRoundTrip(v: Word)
    ensures FromBigEndian(BigEndian(v)) == v
  {
  }

  lemma BigEndianCanonical(s: Bytes)
    requires |s| == 4
    ensures BigEndian(FromBigEndian(s)) == s
  {
    var a: int, b: int, c: int, d: int := s[0], s[1], s[2], s[3];
    assert FromBigEndian(s) / 256 == (a * 256 + b) * 256 + c;
    assert ((a * 256 + b) * 256 + c) / 256 == a * 256 + b;
  }

  /** Every value's length fits the 32-bit length field. */
  ghost predicate Fit(fs: seq<Field>) {
    forall i :: 0 <= i < |fs| ==> |fs[i].value| < U32
  }

  lemma {:induction false} EncodeFieldsFront(f: Field, fs: seq<Field>)
    ensures EncodeFields([f] + fs) == EncodeField(f) + EncodeFields(fs)
    decreases |fs|
  {
    hide EncodeField;
    if fs == [] {
      assert [f] + fs == [f];
      assert EncodeFields([f]) == EncodeFields([f][..0]) + EncodeField(f);
      assert [f][..0] == [];
    } else {
      var n := |fs| - 1;
      EncodeFieldsFront(f, fs[..n]);
      assert ([f] + fs)[..n + 1] == [f] + fs[..n];
      assert EncodeField(f) + (EncodeFields(fs[..n]) + EncodeField(fs[n])) ==
             EncodeField(f) + EncodeFields(fs[..n]) + EncodeField(fs[n]);
    }
  }

  lemma FieldSplits(f: Field, rest: Bytes)
    requires |f.value| < U32
    ensures var s := EncodeField(f) + rest;
            && |s| == 5 + |f.value| + |rest|
            && s[0] == f.tag && FromBigEndian(s[1..5]) == |f.value|
            && s[5..5 + |f.value|] == f.value && s[5 + |f.value|..] == rest
  {
    var s := EncodeField(f) + rest;
    assert s[1..5] == BigEndian(|f.value|);
    BigEndianRoundTrip(|f.value|);
  }

  lemma {:induction false} ParseInvertsEncode(fs: seq<Field>)
    requires Fit(fs)
    ensures ParseFields(EncodeFields(fs)) == Some(fs)
    decreases |fs|
  {
    hide EncodeField, FromBigEndian;
    if fs == [] {
      EncodeNothing();
    } else {
      var rest := fs[1..];
      assert [fs[0]] + rest == fs;
      EncodeFieldsFront(fs[0], rest);
      FieldSplits(fs[0], EncodeFields(rest));
      ParseInvertsEncode(rest);
    }
  }

  lemma FieldJoins(s: Bytes, n: nat)
    requires 5 + n <= |s| && n == FromBigEndian(s[1..5])
    ensures EncodeField(Field(s[0], s[5..5 + n])) + s[5 + n..] == s
  {
    hide FromBigEndian, BigEndian;
    BigEndianCanonical(s[1..5]);
    assert |s[5..5 + n]| % U32 == n;
    assert s[..5] == [s[0]] + s[1..5];
    assert s[..5 + n] == s[..5] + s[5..5 + n];
    assert s == s[..5 + n] + s[5 + n..];
  }

  lemma {:induction false} EncodeInvertsParse(s: Bytes)
    requires ParseFields(s).Some?
    ensures EncodeFields(ParseFields(s).value) == s
    ensures Fit(ParseFields(s).value)
    decreases |s|
  {
    hide FromBigEndian, EncodeField, EncodeFields;
    if s == [] {
      EncodeNothing();
    } else {
      var n := FromBigEndian(s[1..5]);
      var f := Field(s[0], s[5..5 + n]);
      EncodeInvertsParse(s[5 + n..]);
      EncodeFieldsFront(f, ParseFields(s[5 + n..]).value);
      FieldJoins(s, n);
    }
  }

  lemma ParseTextRoundTrip(t: string)
    ensures ParseText(EncodeText(t)) == Some(t)
  {
    TextSurvives(t);
  }

  lemma RoleRoundTrip(r: Role)
    ensures ParseRole(EncodeText(RoleLabel(r))) == Some(r)
  {
    if EncodeText(RoleLabel(Host)) == EncodeText(RoleLabel(Guest)) {
      EncodeTextInjective(RoleLabel(Host), RoleLabel(Guest));
    }
  }

  lemma AssembleInvertsFields(t: Transcript)
    ensures Assemble(FieldsOf(t)) == Some(t)
  {
    hide EncodeText, BigEndian, FromBigEndian, ParseText, ParseRole;
    ParseTextRoundTrip(t.vmId);
    ParseTextRoundTrip(t.guestBootId);
    RoleRoundTrip(t.role);
    BigEndianRoundTrip(t.protocolVersion);
    BigEndianRoundTrip(t.guestControlPort);
    if t.peerCid.Some? {
      BigEndianRoundTrip(t.peerCid.value);
    }
    var fs := FieldsOf(t);
    var rest := After(t) + HashField(t);
    assert forall i :: 0 <= i < 7 ==> fs[i] == Before(t)[i];
    assert fs[7] == if t.peerCid.Some? then PeerField(t)[0] else After(t)[0];
    assert (if t.peerCid.Some? then fs[8..] else fs[7..]) == rest;
    assert t.direction.HostToGuest? && t.purpose.GuestControlAuthV1?;
  }

  lemma FieldsInvertAssemble(fs: seq<Field>)
    ensures Assemble(fs).Some? ==> FieldsOf(Assemble(fs).value) == fs
  {
    hide EncodeText, BigEndian, FromBigEndian;
    if Assemble(fs).Some? {
      BigEndianCanonical(fs[5].value);
      BigEndianCanonical(fs[6].value);
      var t := Assemble(fs).value;
      var k := 7;
      if fs[7].tag == 8 {
        BigEndianCanonical(fs[7].value);
        k := 8;
      }
      assert fs[..7] == Before(t);
      assert fs[7..k] == PeerField(t);
      assert fs[k..] == After(t) + HashField(t);
      assert fs == fs[..7] + fs[7..k] + fs[k..];
    }
  }

  /** No variable-length field is too long for its length prefix. */
  ghost predicate Encodable(t: Transcript) {
    && TextBytes(t.vmId) < U32 && TextBytes(t.guestBootId) < U32
    && (t.capabilitiesHash.Some? ==> |t.capabilitiesHash.value| < U32)
  }

  lemma EncodableFits(t: Transcript)
    requires Encodable(t)
    ensures Fit(FieldsOf(t))
  {
    hide EncodeText;
    LabelsAreShort();
    var fs := FieldsOf(t);
    forall i | 0 <= i < |fs| ensures |fs[i].value| < U32 {
      assert fs[i] in Before(t) || fs[i] in PeerField(t) || fs[i] in After(t) || fs[i] in HashField(t);
    }
  }

  lemma {:induction false} TextBytesBound(t: string)
    ensures |EncodeText(t)| <= 4 * |t|
  {
    if t != "" {
      TextBytesBound(t[1..]);
    }
  }

  lemma LabelsAreShort()
    ensures |EncodeText("guest-control-auth-v1")| < U32
    ensures |EncodeText(DIRECTION_LABEL)| < U32 && |EncodeText(PURPOSE_LABEL)| < U32
    ensures |EncodeText(RoleLabel(Host))| < U32 && |EncodeText(RoleLabel(Guest))| < U32
  {
    hide EncodeText;
    TextBytesBound("guest-control-auth-v1");
    TextBytesBound(DIRECTION_LABEL);
    TextBytesBound(RoleLabel(Host));
    TextBytesBound(RoleLabel(Guest));
  }

  // ----- The bytes of a transcript -----

  ghost predicate IsAscii(word: string) {
    forall i :: 0 <= i < |word| ==> word[i] as int < 128
  }

  /** The character codes of an ASCII word. */
  ghost function Ascii(word: string): Bytes
    requires IsAscii(word)
  {
    seq<Byte>(|word|, i requires 0 <= i < |word| => word[i] as int)
  }

  /** The four bytes of a 32-bit value, the most significant one first. */
  ghost function Four(v: Word): Bytes {
    [v / 16777216, v / 65536 % 256, v / 256 % 256, v % 256]
  }

  ghost function Wire(tag: Byte, value: Bytes): Bytes
    requires |value| < U32
  {
    [tag] + Four(|value|) + value
  }

  lemma BigEndianIsFour(v: Word)
    ensures BigEndian(v) == Four(v)
  {
    var q := v / 256;
    var p := q / 256;
    assert p == v / 65536 && p / 256 == v / 16777216 && p / 256 < 256;
  }

  lemma FieldIsWire(tag: Byte, value: Bytes)
    requires |value| < U32
    ensures EncodeField(Field(tag, value)) == Wire(tag, value)
  {
    hide BigEndian, Four;
    BigEndianIsFour(|value|);
  }

  lemma {:induction false} EncodedAscii(word: string)
    requires IsAscii(word)
    ensures EncodeText(word) == Ascii(word)
    decreases |word|
  {
    if word != "" {
      EncodedAscii(word[1..]);
      assert Ascii(word) == [word[0] as int] + Ascii(word[1..]);
    }
  }

  /** Fields 1 to 4 are fixed by the role, as words in ASCII. */
  ghost function Preamble(role: Role): Bytes {
    Wire(1, Ascii("guest-control-auth-v1")) +
    Wire(2, if role.Host? then Ascii("host-proof") else Ascii("guest-proof")) +
    Wire(3, Ascii("host-to-guest")) +
    Wire(4, Ascii("guest-control-auth-v1"))
  }

  lemma PreambleIsEncoded(t: Transcript)
    ensures EncodeFields(Before(t)[..4]) == Preamble(t.role)
  {
    hide EncodeFields, EncodeField, EncodeText, Wire, Ascii;
    LabelsAreShort();
    EncodedAscii("guest-control-auth-v1");
    EncodedAscii("host-to-guest");
    EncodedAscii("host-proof");
    EncodedAscii("guest-proof");
    EncodeNothing();
    var role := EncodeText(RoleLabel(t.role));
    var fs := Pushed([], 1, EncodeText("guest-control-auth-v1"));
    fs := Pushed(fs, 2, role);
    fs := Pushed(fs, 3, EncodeText(DIRECTION_LABEL));
    fs := Pushed(fs, 4, EncodeText(PURPOSE_LABEL));
    FieldIsWire(1, EncodeText("guest-control-auth-v1"));
    FieldIsWire(2, role);
    FieldIsWire(3, EncodeText(DIRECTION_LABEL));
    FieldIsWire(4, EncodeText(PURPOSE_LABEL));
    assert fs == Before(t)[..4];
  }

  /**
    * The encoding byte for byte: each field is a tag, a four-byte length and the value, in the
    * order of the tags, with the peer CID and the capabilities hash only where they are given.
    */
  lemma TranscriptBytes(t: Transcript)
    requires Encodable(t)
    ensures EncodeFields(FieldsOf(t)) ==
            Preamble(t.role) +
            Wire(5, EncodeText(t.vmId)) +
            Wire(6, Four(t.protocolVersion)) +
            Wire(7, Four(t.guestControlPort)) +
            (if t.peerCid.Some? then Wire(8, Four(t.peerCid.value)) else []) +
            Wire(10, t.hostNonce) +
            Wire(11, t.guestNonce) +
            Wire(12, EncodeText(t.guestBootId)) +
            (if t.capabilitiesHash.Some? then Wire(13, t.capabilitiesHash.value) else [])
  {
    hide EncodeFields, EncodeField, EncodeText, Wire, Ascii, Preamble, BigEndian, Four;
    PreambleIsEncoded(t);
    var fs := PushedWire(Before(t)[..4], 5, EncodeText(t.vmId));
    BigEndianIsFour(t.protocolVersion);
    fs := PushedWire(fs, 6, BigEndian(t.protocolVersion));
    BigEndianIsFour(t.guestControlPort);
    fs := PushedWire(fs, 7, BigEndian(t.guestControlPort));
    assert fs == Before(t);
    if t.peerCid.Some? {
      BigEndianIsFour(t.peerCid.value);
      fs := PushedWire(fs, 8, BigEndian(t.peerCid.value));
    }
    assert fs == Before(t) + PeerField(t);
    fs := PushedWire(fs, 10, t.hostNonce);
    fs := PushedWire(fs, 11, t.guestNonce);
    fs := PushedWire(fs, 12, EncodeText(t.guestBootId));
    assert fs == Before(t) + PeerField(t) + After(t);
    if t.capabilitiesHash.Some? {
      fs := PushedWire(fs, 13, t.capabilitiesHash.value);
    }
    assert fs == FieldsOf(t);
  }

  lemma PushedWire(fs: seq<Field>, tag: Byte, value: Bytes) returns (grown: seq<Field>)
    requires |value| < U32
    ensures grown == fs + [Field(tag, value)]
    ensures EncodeFields(grown) == EncodeFields(fs) + Wire(tag, value)
  {
    hide EncodeFields, EncodeField, Wire;
    grown := Pushed(fs, tag, value);
    FieldIsWire(tag, value);
  }

  // ----- Round trips -----

  /**
    * A decoder recovers every field of an encoded transcript, including whether the peer CID and the capabilities
    * hash are there.
    */
  lemma DecodeInvertsEncode(t: Transcript)
    requires Encodable(t)
    ensures DecodeTranscript(EncodeFields(FieldsOf(t))) == Some(t)
  {
    hide EncodeFields, ParseFields, Assemble, FieldsOf, Encodable, Fit;
    EncodableFits(t);
    ParseInvertsEncode(FieldsOf(t));
    AssembleInvertsFields(t);
  }

  /** And only the encoding of a transcript decodes to it. */
  lemma EncodeInvertsDecode(s: Bytes)
    ensures DecodeTranscript(s).Some? ==> EncodeFields(FieldsOf(DecodeTranscript(s).value)) == s
  {
    hide EncodeFields, ParseFields, Assemble, FieldsOf, Fit;
    if DecodeTranscript(s).Some? {
      EncodeInvertsParse(s);
      FieldsInvertAssemble(ParseFields(s).value);
    }
  }

  /** Equal encodings are encodings of equal transcripts. */
  lemma EncodingIsInjective(t: Transcript, u: Transcript)
    requires Encodable(t) && Encodable(u)
    ensures EncodeFields(FieldsOf(t)) == EncodeFields(FieldsOf(u)) <==> t == u
  {
    hide EncodeFields, DecodeTranscript, FieldsOf, Encodable;
    DecodeInvertsEncode(t);
    DecodeInvertsEncode(u);
  }
}
