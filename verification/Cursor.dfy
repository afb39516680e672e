/** The discovery cursor: payload and signature, each as unpadded base64url (section 5 of RFC 4648), joined by a dot. */
module Cursor {
  import opened Prelude

  type Byte = b: int | 0 <= b < 256

  // ----- base64url

  function Symbol(v: nat): (c: char)
    requires v < 64
  {
    if v < 26 then 'A' + v as char
    else if v < 52 then 'a' + (v - 26) as char
    else if v < 62 then '0' + (v - 52) as char
    else if v == 62 then '-'
    else '_'
  }

  /** The decoder maps the url-safe symbols onto the standard alphabet, so it takes both spellings. */
  function ValueOf(c: char): (v: Option<nat>)
    ensures v.Some? ==> v.value < 64
  {
    if 'A' <= c <= 'Z' then Some((c - 'A') as nat)
    else if 'a' <= c <= 'z' then Some((c - 'a') as nat + 26)
    else if '0' <= c <= '9' then Some((c - '0') as nat + 52)
    else if c == '-' || c == '+' then Some(62)
    else if c == '_' || c == '/' then Some(63)
    else None
  }

  /** The standard encoder: three bytes become four symbols, a shorter end is filled up with '='. */
  function EncodePadded(bytes: seq<Byte>): string {
    if |bytes| == 0 then ""
    else if |bytes| == 1 then Pair(bytes[0]) + "=="
    else if |bytes| == 2 then Triple(bytes[0], bytes[1]) + "="
    else
      Quad(bytes[0], bytes[1], bytes[2]) + EncodePadded(bytes[3..])
  }

  function Pair(a: Byte): (pair: string)
    ensures |pair| == 2
  {
    [Symbol(a / 4), Symbol(a % 4 * 16)]
  }

  function Triple(a: Byte, b: Byte): (triple: string)
    ensures |triple| == 3
  {
    [Symbol(a / 4), Symbol(a % 4 * 16 + b / 16), Symbol(b % 16 * 4)]
  }

  function Quad(a: Byte, b: Byte, c: Byte): (quad: string)
    ensures |quad| == 4
  {
    [Symbol(a / 4), Symbol(a % 4 * 16 + b / 16), Symbol(b % 16 * 4 + c / 64), Symbol(c % 64)]
  }

  function Group(w: nat, x: nat, y: nat, z: nat): seq<Byte>
    requires w < 64 && x < 64 && y < 64 && z < 64
  {
    [w * 4 + x / 16, x % 16 * 16 + y / 4, y % 4 * 64 + z]
  }

  /** The validating decoder: groups of four, '=' only at the very end; spare bits of the last symbol are dropped. */
  function DecodePadded(text: string): Option<seq<Byte>> {
    if |text| == 0 then Some([])
    else if |text| < 4 then None
    else
      var w, x, y, z := ValueOf(text[0]), ValueOf(text[1]), ValueOf(text[2]), ValueOf(text[3]);
      if w.None? || x.None? then None
      else if |text| == 4 && text[2] == '=' && text[3] == '=' then
        Some([w.value * 4 + x.value / 16])
      else if y.None? then None
      else if |text| == 4 && text[3] == '=' then
        Some([w.value * 4 + x.value / 16, x.value % 16 * 16 + y.value / 4])
      else if z.None? then None
      else
        match DecodePadded(text[4..])
        case None => None
        case Some(rest) =>
          Some(Group(w.value, x.value, y.value, z.value) + rest)
  }

  function Padding(n: nat): (pad: string) {
    seq(n, _ => '=')
  }

  function StripPadding(text: string): string {
    if |text| > 0 && text[|text| - 1] == '=' then StripPadding(text[..|text| - 1]) else text
  }

  function B64(bytes: seq<Byte>): string {
    StripPadding(EncodePadded(bytes))
  }

  /** Fills up to a multiple of four. Python's -n % 4 is Dafny's. */
  function Unb64(text: string): Option<seq<Byte>> {
    DecodePadded(text + Padding(-|text| % 4))
  }

  lemma SymbolValue(v: nat)
    requires v < 64
    ensures ValueOf(Symbol(v)) == Some(v)
    ensures Symbol(v) != '=' && Symbol(v) != '.'
  {
  }

  /** Symbols only: neither the filler nor the dot. */
  predicate Plain(text: string) {
    forall ch | ch in text :: ch != '=' && ch != '.'
  }

  lemma QuadValues(a: Byte, b: Byte, c: Byte)
    ensures var q := Quad(a, b, c);
            && ValueOf(q[0]) == Some(a / 4) && ValueOf(q[1]) == Some(a % 4 * 16 + b / 16)
            && ValueOf(q[2]) == Some(b % 16 * 4 + c / 64) && ValueOf(q[3]) == Some(c % 64)
            && Plain(q)
  {
    SymbolValue(a / 4);
    SymbolValue(a % 4 * 16 + b / 16);
    SymbolValue(b % 16 * 4 + c / 64);
    SymbolValue(c % 64);
  }

  lemma TripleValues(a: Byte, b: Byte)
    ensures var t := Triple(a, b);
            && ValueOf(t[0]) == Some(a / 4) && ValueOf(t[1]) == Some(a % 4 * 16 + b / 16)
            && ValueOf(t[2]) == Some(b % 16 * 4) && Plain(t)
  {
    SymbolValue(a / 4);
    SymbolValue(a % 4 * 16 + b / 16);
    SymbolValue(b % 16 * 4);
  }

  lemma PairValues(a: Byte)
    ensures var p := Pair(a); ValueOf(p[0]) == Some(a / 4) && ValueOf(p[1]) == Some(a % 4 * 16) && Plain(p)
  {
    SymbolValue(a / 4);
    SymbolValue(a % 4 * 16);
  }

  lemma GroupBack(a: Byte, b: Byte, c: Byte)
    ensures Group(a / 4, a % 4 * 16 + b / 16, b % 16 * 4 + c / 64, c % 64) == [a, b, c]
  {
    assert a / 4 * 4 + (a % 4 * 16 + b / 16) / 16 == a;
    assert (a % 4 * 16 + b / 16) % 16 * 16 + (b % 16 * 4 + c / 64) / 4 == b;
    assert (b % 16 * 4 + c / 64) % 4 * 64 + c % 64 == c;
  }

  lemma DecodeGroup(text: string, w: nat, x: nat, y: nat, z: nat)
    requires |text| >= 4 && DecodePadded(text[4..]).Some?
    requires text[2] != '=' && text[3] != '='
    requires ValueOf(text[0]) == Some(w) && ValueOf(text[1]) == Some(x)
    requires ValueOf(text[2]) == Some(y) && ValueOf(text[3]) == Some(z)
    ensures DecodePadded(text) == Some(Group(w, x, y, z) + DecodePadded(text[4..]).value)
  {
  }

  lemma DecodeQuad(q: string, rest: string, a: Byte, b: Byte, c: Byte)
    requires |q| == 4 && Plain(q) && DecodePadded(rest).Some?
    requires ValueOf(q[0]) == Some(a / 4) && ValueOf(q[1]) == Some(a % 4 * 16 + b / 16)
    requires ValueOf(q[2]) == Some(b % 16 * 4 + c / 64) && ValueOf(q[3]) == Some(c % 64)
    ensures DecodePadded(q + rest) == Some([a, b, c] + DecodePadded(rest).value)
  {
    assert q[2] in q && q[3] in q;
    assert (q + rest)[4..] == rest;
    DecodeGroup(q + rest, a / 4, a % 4 * 16 + b / 16, b % 16 * 4 + c / 64, c % 64);
    GroupBack(a, b, c);
  }

  lemma DecodeTriple(t: string, a: Byte, b: Byte)
    requires |t| == 3 && Plain(t)
    requires ValueOf(t[0]) == Some(a / 4) && ValueOf(t[1]) == Some(a % 4 * 16 + b / 16) && ValueOf(t[2]) == Some(b % 16 * 4)
    ensures DecodePadded(t + "=") == Some([a, b])
  {
    var text := t + "=";
    assert text[0] == t[0] && text[1] == t[1] && text[2] == t[2] && text[3] == '=';
    assert t[2] in t;
    assert a / 4 * 4 + (a % 4 * 16 + b / 16) / 16 == a;
    assert (a % 4 * 16 + b / 16) % 16 * 16 + (b % 16 * 4) / 4 == b;
  }

  lemma DecodePair(p: string, a: Byte)
    requires |p| == 2 && ValueOf(p[0]) == Some(a / 4) && ValueOf(p[1]) == Some(a % 4 * 16)
    ensures DecodePadded(p + "==") == Some([a])
  {
    var text := p + "==";
    assert text[0] == p[0] && text[1] == p[1] && text[2] == '=' && text[3] == '=';
    assert a / 4 * 4 + (a % 4 * 16) / 16 == a;
  }

  lemma DecodeThree(a: Byte, b: Byte, c: Byte, text: string, rest: seq<Byte>)
    requires DecodePadded(text) == Some(rest)
    ensures DecodePadded(Quad(a, b, c) + text) == Some([a, b, c] + rest)
  {
    QuadValues(a, b, c);
    DecodeQuad(Quad(a, b, c), text, a, b, c);
  }

  lemma DecodeTwo(a: Byte, b: Byte)
    ensures DecodePadded(Triple(a, b) + "=") == Some([a, b])
  {
    TripleValues(a, b);
    DecodeTriple(Triple(a, b), a, b);
  }

  lemma DecodeOne(a: Byte)
    ensures DecodePadded(Pair(a) + "==") == Some([a])
  {
    PairValues(a);
    DecodePair(Pair(a), a);
  }

  lemma DecodeShort(bytes: seq<Byte>)
    requires |bytes| < 3
    ensures DecodePadded(EncodePadded(bytes)) == Some(bytes)
  {
    if |bytes| == 1 {
      DecodeOne(bytes[0]);
      assert bytes == [bytes[0]];
    } else if |bytes| == 2 {
      DecodeTwo(bytes[0], bytes[1]);
      assert bytes == [bytes[0], bytes[1]];
    }
  }

  lemma DecodeLong(bytes: seq<Byte>, text: string)
    requires |bytes| >= 3 && text == EncodePadded(bytes[3..]) && DecodePadded(text) == Some(bytes[3..])
    ensures DecodePadded(EncodePadded(bytes)) == Some(bytes)
  {
    DecodeThree(bytes[0], bytes[1], bytes[2], text, bytes[3..]);
    assert EncodePadded(bytes) == Quad(bytes[0], bytes[1], bytes[2]) + text;
    assert bytes == [bytes[0], bytes[1], bytes[2]] + bytes[3..];
  }

  lemma {:induction false} DecodeEncoded(bytes: seq<Byte>)
    ensures DecodePadded(EncodePadded(bytes)) == Some(bytes)
  {
    if |bytes| < 3 {
      DecodeShort(bytes);
    } else {
      DecodeEncoded(bytes[3..]);
      DecodeLong(bytes, EncodePadded(bytes[3..]));
    }
  }

  lemma FourMore(n: int)
    ensures -(4 + n) % 4 == -n % 4
  {
  }

  lemma ThreeMore(n: nat)
    ensures ((n + 3) * 4 + 2) / 3 == 4 + (n * 4 + 2) / 3
  {
  }

  lemma CoreOne(a: Byte) returns (core: string)
    ensures Pair(a) + "==" == core + Padding(-|core| % 4) && |core| == 2 && Plain(core)
  {
    PairValues(a);
    core := Pair(a);
    assert "==" == Padding(2);
  }

  lemma CoreTwo(a: Byte, b: Byte) returns (core: string)
    ensures Triple(a, b) + "=" == core + Padding(-|core| % 4) && |core| == 3 && Plain(core)
  {
    TripleValues(a, b);
    core := Triple(a, b);
    assert "=" == Padding(1);
  }

  lemma CoreThree(a: Byte, b: Byte, c: Byte, rest: string, n: nat) returns (core: string)
    requires Plain(rest) && |rest| == (n * 4 + 2) / 3
    ensures Quad(a, b, c) + (rest + Padding(-|rest| % 4)) == core + Padding(-|core| % 4)
    ensures |core| == ((n + 3) * 4 + 2) / 3 && Plain(core)
  {
    QuadValues(a, b, c);
    var q := Quad(a, b, c);
    core := q + rest;
    FourMore(|rest|);
    ThreeMore(n);
    assert q + (rest + Padding(-|rest| % 4)) == core + Padding(-|rest| % 4);
  }

  /** The encoder's text is a core without '=' or '.', filled up to a multiple of four. */
  lemma {:induction false} CoreOf(bytes: seq<Byte>) returns (core: string)
    ensures EncodePadded(bytes) == core + Padding(-|core| % 4)
    ensures |core| == (|bytes| * 4 + 2) / 3
    ensures Plain(core)
  {
    if |bytes| == 0 {
      core := "";
    } else if |bytes| == 1 {
      core := CoreOne(bytes[0]);
    } else if |bytes| == 2 {
      core := CoreTwo(bytes[0], bytes[1]);
    } else {
      var rest := CoreOf(bytes[3..]);
      core := CoreThree(bytes[0], bytes[1], bytes[2], rest, |bytes| - 3);
    }
  }

  lemma {:induction false} StripFilled(core: string, n: nat)
    requires '=' !in core
    ensures StripPadding(core + Padding(n)) == core
  {
    if n == 0 {
      assert core + Padding(0) == core;
    } else {
      var text := core + Padding(n);
      assert text[..|text| - 1] == core + Padding(n - 1);
      StripFilled(core, n - 1);
    }
  }

  /** What stripping leaves: the length, the alphabet, and that re-padding restores the encoder's text. */
  lemma Repadded(bytes: seq<Byte>)
    ensures |B64(bytes)| == (|bytes| * 4 + 2) / 3
    ensures B64(bytes) + Padding(-|B64(bytes)| % 4) == EncodePadded(bytes)
    ensures '.' !in B64(bytes)
  {
    var core := CoreOf(bytes);
    StripFilled(core, -|core| % 4);
  }

  /** Every byte string survives. */
  lemma Unb64OfB64(bytes: seq<Byte>)
    ensures Unb64(B64(bytes)) == Some(bytes)
  {
    Repadded(bytes);
    DecodeEncoded(bytes);
  }

  // ----- the alphabet of section 5 of RFC 4648

  /** The 64 characters that stand for themselves in a URL. */
  predicate UrlSafe(c: char) {
    'A' <= c <= 'Z' || 'a' <= c <= 'z' || '0' <= c <= '9' || c == '-' || c == '_'
  }

  lemma QuadUrlSafe(a: Byte, b: Byte, c: Byte)
    ensures forall ch | ch in Quad(a, b, c) :: UrlSafe(ch)
  {
  }

  lemma TripleUrlSafe(a: Byte, b: Byte)
    ensures forall ch | ch in Triple(a, b) :: UrlSafe(ch)
  {
  }

  lemma PairUrlSafe(a: Byte)
    ensures forall ch | ch in Pair(a) :: UrlSafe(ch)
  {
  }

  lemma {:induction false} EncodedChars(bytes: seq<Byte>)
    ensures forall ch | ch in EncodePadded(bytes) :: UrlSafe(ch) || ch == '='
  {
    if |bytes| == 1 {
      PairUrlSafe(bytes[0]);
    } else if |bytes| == 2 {
      TripleUrlSafe(bytes[0], bytes[1]);
    } else if |bytes| > 2 {
      QuadUrlSafe(bytes[0], bytes[1], bytes[2]);
      EncodedChars(bytes[3..]);
    }
  }

  /** What the encoder writes can be sent in a URL as it is: letters, digits, '-' and '_'. */
  lemma B64IsUrlSafe(bytes: seq<Byte>)
    ensures forall ch | ch in B64(bytes) ::
              'A' <= ch <= 'Z' || 'a' <= ch <= 'z' || '0' <= ch <= '9' || ch == '-' || ch == '_'
  {
    var core := CoreOf(bytes);
    EncodedChars(bytes);
    StripFilled(core, -|core| % 4);
    forall ch | ch in core ensures UrlSafe(ch) {
      assert ch in EncodePadded(bytes);
    }
  }

  /** Text of one group of four is written symbol by symbol. */
  lemma OneGroup(a: Byte, b: Byte, c: Byte)
    ensures B64([a, b, c]) == Quad(a, b, c)
  {
    var bytes: seq<Byte> := [a, b, c];
    assert bytes[3..] == [];
    QuadValues(a, b, c);
    assert Quad(a, b, c)[3] in Quad(a, b, c);
    assert EncodePadded(bytes) == Quad(a, b, c);
  }

  /** Test vectors of section 10 of RFC 4648. */
  lemma Rfc4648Vectors()
    ensures B64([102, 111, 111]) == "Zm9v" && B64([98, 97, 114]) == "YmFy"
  {
    OneGroup(102, 111, 111);
    OneGroup(98, 97, 114);
  }

  /** The two symbols in which the url-safe alphabet differs from the standard one. */
  lemma LastSymbols()
    ensures B64([251, 255, 191]) == "-_-_"
  {
    OneGroup(251, 255, 191);
  }

  /** The same character, in either of the two alphabets. */
  predicate SameSymbol(c: char, d: char) {
    || c == d
    || ((c == '-' || c == '+') && (d == '-' || d == '+'))
    || ((c == '_' || c == '/') && (d == '_' || d == '/'))
  }

  lemma SameValue(c: char, d: char)
    requires SameSymbol(c, d)
    ensures ValueOf(c) == ValueOf(d) && (c == '=' <==> d == '=')
  {
  }

  lemma {:induction false} DecodesAlike(a: string, b: string)
    requires |a| == |b| && forall i | 0 <= i < |a| :: SameSymbol(a[i], b[i])
    ensures DecodePadded(a) == DecodePadded(b)
    decreases |a|
  {
    if |a| >= 4 {
      SameValue(a[0], b[0]);
      SameValue(a[1], b[1]);
      SameValue(a[2], b[2]);
      SameValue(a[3], b[3]);
      DecodesAlike(a[4..], b[4..]);
    }
  }

  /** The decoder does not tell the two alphabets apart. */
  lemma BothSpellings(a: string, b: string)
    requires |a| == |b| && forall i | 0 <= i < |a| :: SameSymbol(a[i], b[i])
    ensures Unb64(a) == Unb64(b)
  {
    DecodesAlike(a + Padding(-|a| % 4), b + Padding(-|b| % 4));
  }

  lemma {:induction false} DecodedChars(text: string)
    requires DecodePadded(text).Some?
    ensures forall ch | ch in text :: UrlSafe(ch) || ch == '+' || ch == '/' || ch == '='
    decreases |text|
  {
    if |text| > 0 {
      var rest := text[4..];
      assert forall ch | ch in text :: ch == text[0] || ch == text[1] || ch == text[2] || ch == text[3] || ch in rest;
      if |rest| > 0 || (text[2] != '=' && text[3] != '=') {
        DecodedChars(rest);
      }
    }
  }

  /** The decoder refuses text with any other character. */
  lemma DecodableIsBase64(text: string)
    requires Unb64(text).Some?
    ensures forall ch | ch in text ::
              'A' <= ch <= 'Z' || 'a' <= ch <= 'z' || '0' <= ch <= '9' || ch in "-_+/="
  {
    var padded := text + Padding(-|text| % 4);
    DecodedChars(padded);
    forall ch | ch in text ensures ch in padded {
    }
  }

  // ----- the signed cursor

  const MAX_CURSOR := 2048
  const MAX_KEY := 160
  /** The longest payload whose cursor is still accepted: 2048 characters less the dot and the 43 of the signature. */
  const MAX_PAYLOAD := 1503

  datatype Position =
    | EventAt(score: int, start: int, eventId: nat)
    | ClubAt(name: string, clubId: nat)
    | ResultAt(title: string, kind: string, resultId: nat)

  datatype Payload<F> = Payload(filters: F, position: Position, scope: string, version: int)

  /** The JSON writer and reader, the keyed digest and the UUID check, none of them looked into. */
  datatype Codec<!F(!new)> = Codec(
    toJson: Payload<F> -> seq<Byte>, fromJson: seq<Byte> -> Option<Payload<F>>, digest: seq<Byte> -> seq<Byte>,
    isUuid7: nat -> bool)
  {
    /** JSON text reads back as what was written, and SHA-256 digests have 32 bytes. */
    ghost predicate Sound() {
      && (forall p :: fromJson(toJson(p)) == Some(p))
      && (forall b :: |digest(b)| == 32)
    }
  }

  function ScopeOf(p: Position): string {
    match p
    case EventAt(_, _, _) => "events"
    case ClubAt(_, _) => "clubs"
    case ResultAt(_, _, _) => "search"
  }

  function IdOf(p: Position): nat {
    match p
    case EventAt(_, _, id) => id
    case ClubAt(_, id) => id
    case ResultAt(_, _, id) => id
  }

  /** The checks of the three decoders on their own kind of position. */
  predicate WellFormed(p: Position) {
    match p
    case EventAt(_, _, _) => true
    case ClubAt(name, _) => 0 < |name| <= MAX_KEY
    case ResultAt(title, kind, _) => 0 < |title| <= MAX_KEY && (kind == "event" || kind == "club")
  }

  function Encode<F(!new)>(codec: Codec<F>, filters: F, position: Position): Option<string> {
    if !codec.isUuid7(IdOf(position)) then None
    else
      var payload := codec.toJson(Payload(filters, position, ScopeOf(position), 1));
      Some(B64(payload) + "." + B64(codec.digest(payload)))
  }

  function FirstDot(text: string): (i: Option<nat>)
    ensures i.Some? ==> i.value < |text| && text[i.value] == '.' && '.' !in text[..i.value]
    ensures i.None? ==> '.' !in text
  {
    if |text| == 0 then None
    else if text[0] == '.' then Some(0)
    else
      match FirstDot(text[1..])
      case None => None
      case Some(i) =>
        assert text[..i + 1] == [text[0]] + text[1..][..i];
        Some(i + 1)
  }

  /** What is asked of a payload once its signature holds. */
  function Accept<F(==,!new)>(codec: Codec<F>, payload: seq<Byte>, scope: string, filters: F): Option<Position> {
    match codec.fromJson(payload)
    case None => None
    case Some(raw) =>
      if raw.version != 1 || raw.scope != scope || raw.filters != filters then None
      else if ScopeOf(raw.position) == scope && WellFormed(raw.position) && codec.isUuid7(IdOf(raw.position))
      then Some(raw.position)
      else None
  }

  function Decode<F(==,!new)>(codec: Codec<F>, cursor: string, scope: string, filters: F): Option<Position> {
    if |cursor| > MAX_CURSOR then None
    else
      match FirstDot(cursor)
      case None => None
      case Some(dot) =>
        match (Unb64(cursor[..dot]), Unb64(cursor[dot + 1..]))
        case (Some(payload), Some(signature)) =>
          if signature == codec.digest(payload) then Accept(codec, payload, scope, filters) else None
        case _ => None
  }

  lemma {:induction false} FirstDotIs(text: string, i: nat)
    requires i < |text| && text[i] == '.' && '.' !in text[..i]
    ensures FirstDot(text) == Some(i)
  {
    if i > 0 {
      assert text[..i][0] == text[0];
      assert text[1..][..i - 1] == text[..i][1..];
      FirstDotIs(text[1..], i - 1);
    }
  }

  /** Splitting at the first dot takes apart what the dot joined. */
  lemma SplitJoined(front: string, back: string)
    requires '.' !in front
    ensures FirstDot(front + "." + back) == Some(|front|)
    ensures (front + "." + back)[..|front|] == front && (front + "." + back)[|front| + 1..] == back
  {
    assert (front + "." + back)[..|front|] == front;
    FirstDotIs(front + "." + back, |front|);
  }

  /** What the decoder makes of a well-signed cursor, short or long. */
  lemma DecodeSigned<F(!new)>(codec: Codec<F>, payload: seq<Byte>, scope: string, asked: F)
    requires |codec.digest(payload)| == 32
    ensures Decode(codec, B64(payload) + "." + B64(codec.digest(payload)), scope, asked) ==
            if |payload| <= MAX_PAYLOAD then Accept(codec, payload, scope, asked) else None
  {
    var signature := codec.digest(payload);
    var cursor := B64(payload) + "." + B64(signature);
    Repadded(payload);
    Repadded(signature);
    SplitJoined(B64(payload), B64(signature));
    Unb64OfB64(payload);
    Unb64OfB64(signature);
    assert |cursor| == (|payload| * 4 + 2) / 3 + 44;
  }

  /** A cursor can be sent in a URL as it is: letters, digits, '-' and '_' around one dot. */
  lemma CursorIsUrlSafe<F(!new)>(codec: Codec<F>, filters: F, position: Position) returns (dot: nat)
    requires Encode(codec, filters, position).Some?
    ensures var cursor := Encode(codec, filters, position).value;
            && dot < |cursor| && cursor[dot] == '.'
            && forall i | 0 <= i < |cursor| && i != dot ::
                 var c := cursor[i]; 'A' <= c <= 'Z' || 'a' <= c <= 'z' || '0' <= c <= '9' || c == '-' || c == '_'
  {
    var payload := codec.toJson(Payload(filters, position, ScopeOf(position), 1));
    var front, back := B64(payload), B64(codec.digest(payload));
    var cursor := front + "." + back;
    B64IsUrlSafe(payload);
    B64IsUrlSafe(codec.digest(payload));
    dot := |front|;
    forall i | 0 <= i < |cursor| && i != dot ensures UrlSafe(cursor[i]) {
      if i < dot {
        assert cursor[i] == front[i] && front[i] in front;
      } else {
        assert cursor[i] == back[i - dot - 1] && back[i - dot - 1] in back;
      }
    }
  }

  /** What a position is made into: its list's name, the filters, the format's version, and only for a UUID of version 7. */
  lemma EncodedPayload<F(!new)>(codec: Codec<F>, filters: F, position: Position)
    ensures var (scope, id) :=
              match position
              case EventAt(_, _, id) => ("events", id)
              case ClubAt(_, id) => ("clubs", id)
              case ResultAt(_, _, id) => ("search", id);
            var payload := codec.toJson(Payload(filters, position, scope, 1));
            Encode(codec, filters, position) ==
            if codec.isUuid7(id) then Some(B64(payload) + "." + B64(codec.digest(payload))) else None
  {
  }

  /** Whatever text is accepted, it is at most 2048 characters with a dot, before the first of which stands the payload and
      after it the digest of just that payload; and the payload is one of version 1, of this list, made for these filters,
      with a position that this list could have sent. */
  lemma AcceptedIsSigned<F(!new)>(codec: Codec<F>, cursor: string, scope: string, filters: F, position: Position)
    returns (dot: nat, payload: seq<Byte>)
    requires Decode(codec, cursor, scope, filters) == Some(position)
    ensures |cursor| <= 2048 && dot < |cursor| && cursor[dot] == '.' && '.' !in cursor[..dot]
    ensures Unb64(cursor[..dot]) == Some(payload) && Unb64(cursor[dot + 1..]) == Some(codec.digest(payload))
    ensures codec.fromJson(payload) == Some(Payload(filters, position, scope, 1))
    ensures match position
            case EventAt(_, _, id) => scope == "events" && codec.isUuid7(id)
            case ClubAt(name, id) => scope == "clubs" && codec.isUuid7(id) && 1 <= |name| <= 160
            case ResultAt(title, kind, id) =>
              scope == "search" && codec.isUuid7(id) && 1 <= |title| <= 160 && (kind == "event" || kind == "club")
  {
    dot := FirstDot(cursor).value;
    payload := Unb64(cursor[..dot]).value;
    assert Accept(codec, payload, scope, filters) == Some(position);
  }

  /** A position whose id is a UUID of version 7 gets a cursor, and no other; the cursor reads back as that position
      exactly when it is asked for in its own list, with the filters it was made for, its keys are ones the decoder
      admits, and its payload is not too long; otherwise it is refused. */
  lemma CursorRoundTrip<F(!new)>(codec: Codec<F>, filters: F, position: Position, scope: string, asked: F)
    requires codec.Sound()
    ensures var (own, id, keysOk) :=
              match position
              case EventAt(_, _, id) => ("events", id, true)
              case ClubAt(name, id) => ("clubs", id, 1 <= |name| <= 160)
              case ResultAt(title, kind, id) => ("search", id, 1 <= |title| <= 160 && (kind == "event" || kind == "club"));
            match Encode(codec, filters, position)
            case None => !codec.isUuid7(id)
            case Some(cursor) =>
              && codec.isUuid7(id)
              && Decode(codec, cursor, scope, asked) ==
                   if scope == own && asked == filters && keysOk && |codec.toJson(Payload(filters, position, own, 1))| <= 1503
                   then Some(position) else None
  {
    var record := Payload(filters, position, ScopeOf(position), 1);
    assert codec.fromJson(codec.toJson(record)) == Some(record);
    DecodeSigned(codec, codec.toJson(record), scope, asked);
  }
}
