/** Signed pagination cursors: pkg/localdeps/go-crud/pagination/cursor_codec.go. */
module CursorCodec {
  import opened Basics

  /** Base64 with the URL alphabet and no padding, section 5 of RFC 4648, as
      Go's RawURLEncoding reads and writes it. */
  function Char64(v: nat): char
    requires v < 64
  {
    if v < 26 then ('A' as int + v) as char
    else if v < 52 then ('a' as int + (v - 26)) as char
    else if v < 62 then ('0' as int + (v - 52)) as char
    else if v == 62 then '-' else '_'
  }

  function Value64(c: char): Option<nat> {
    if 'A' <= c <= 'Z' then Some(c as int - 'A' as int)
    else if 'a' <= c <= 'z' then Some(c as int - 'a' as int + 26)
    else if '0' <= c <= '9' then Some(c as int - '0' as int + 52)
    else if c == '-' then Some(62)
    else if c == '_' then Some(63)
    else None
  }

  lemma {:induction false} Alphabet(v: nat)
    requires v < 64
    ensures Value64(Char64(v)) == Some(v)
    ensures Char64(v) !in ".\r\n"
  {
  }

  /** The four characters of three bytes. */
  function Encode4(b0: Byte, b1: Byte, b2: Byte): (s: string)
    ensures |s| == 4
  {
    [Char64(b0 / 4), Char64(b0 % 4 * 16 + b1 / 16), Char64(b1 % 16 * 4 + b2 / 64), Char64(b2 % 64)]
  }

  function Encode64(b: seq<Byte>): string {
    if |b| == 0 then ""
    else if |b| == 1 then Encode4(b[0], 0, 0)[..2]
    else if |b| == 2 then Encode4(b[0], b[1], 0)[..3]
    else Encode4(b[0], b[1], b[2]) + Encode64(b[3..])
  }

  /** The decoder skips line breaks and does not look at unused trailing bits. */
  function SkipLineBreaks(s: string): string {
    if s == [] then []
    else (if s[0] == '\r' || s[0] == '\n' then [] else [s[0]]) + SkipLineBreaks(s[1..])
  }

  /** The three bytes of four characters, when all four are in the alphabet. */
  function Decode4(c0: char, c1: char, c2: char, c3: char): Option<(Byte, Byte, Byte)> {
    var v0, v1, v2, v3 := Value64(c0), Value64(c1), Value64(c2), Value64(c3);
    if v0.None? || v1.None? || v2.None? || v3.None? then None
    else Some(((v0.value * 4 + v1.value / 16) % 256,
               (v1.value % 16 * 16 + v2.value / 4) % 256,
               (v2.value % 4 * 64 + v3.value) % 256))
  }

  /** A last group of two or three characters stands for one or two bytes; a lone character is an error. */
  function DecodeGroups(s: string): Option<seq<Byte>> {
    if |s| == 0 then Some([])
    else if |s| == 1 then None
    else
      match Decode4(s[0], s[1], if |s| > 2 then s[2] else 'A', if |s| > 3 then s[3] else 'A')
      case None => None
      case Some(g) =>
        if |s| == 2 then Some([g.0])
        else if |s| == 3 then Some([g.0, g.1])
        else
          match DecodeGroups(s[4..])
          case None => None
          case Some(rest) => Some([g.0, g.1, g.2] + rest)
  }

  function Decode64(s: string): Option<seq<Byte>> {
    DecodeGroups(SkipLineBreaks(s))
  }

  predicate Clean(s: string) {
    forall i :: 0 <= i < |s| ==> s[i] !in ".\r\n"
  }

  /** Four characters hold the 24 bits of three bytes, in order. */
  lemma {:induction false} GroupBits(b0: Byte, b1: Byte, b2: Byte)
    ensures forall i :: 0 <= i < 4 ==> Value64(Encode4(b0, b1, b2)[i]).Some?
    ensures var s := Encode4(b0, b1, b2);
      var n := (Value64(s[0]).value * 64 + Value64(s[1]).value) * 64 + Value64(s[2]).value;
      n * 64 + Value64(s[3]).value == (b0 * 256 + b1) * 256 + b2
  {
    hide Char64, Value64;
    Alphabet(b0 / 4);
    Alphabet(b0 % 4 * 16 + b1 / 16);
    Alphabet(b1 % 16 * 4 + b2 / 64);
    Alphabet(b2 % 64);
  }

  lemma {:induction false} EncodeIsClean(b: seq<Byte>)
    ensures Clean(Encode64(b))
    ensures |Encode64(b)| == (4 * |b| + 2) / 3
  {
    if |b| >= 3 {
      EncodeIsClean(b[3..]);
    }
  }

  lemma {:induction false} SkipClean(s: string)
    requires Clean(s)
    ensures SkipLineBreaks(s) == s
  {
    if s != [] {
      assert s[0] !in ".\r\n";
      SkipClean(s[1..]);
    }
  }

  lemma {:induction false} GroupRoundTrip(b0: Byte, b1: Byte, b2: Byte)
    ensures var s := Encode4(b0, b1, b2); Decode4(s[0], s[1], s[2], s[3]) == Some((b0, b1, b2))
  {
    hide Char64, Value64;
    Alphabet(b0 / 4);
    Alphabet(b0 % 4 * 16 + b1 / 16);
    Alphabet(b1 % 16 * 4 + b2 / 64);
    Alphabet(b2 % 64);
    assert (b0 % 4 * 16 + b1 / 16) / 16 == b0 % 4;
    assert (b0 % 4 * 16 + b1 / 16) % 16 == b1 / 16;
    assert (b1 % 16 * 4 + b2 / 64) / 4 == b1 % 16;
    assert (b1 % 16 * 4 + b2 / 64) % 4 == b2 / 64;
  }

  lemma {:induction false} OneByte(b0: Byte)
    ensures DecodeGroups(Encode4(b0, 0, 0)[..2]) == Some([b0])
  {
    GroupRoundTrip(b0, 0, 0);
    var s := Encode4(b0, 0, 0);
    assert s[2] == 'A' && s[3] == 'A';
    hide Encode4, Decode4, Char64, Value64;
    assert s[..2][0] == s[0] && s[..2][1] == s[1];
  }

  lemma {:induction false} TwoBytes(b0: Byte, b1: Byte)
    ensures DecodeGroups(Encode4(b0, b1, 0)[..3]) == Some([b0, b1])
  {
    GroupRoundTrip(b0, b1, 0);
    var s := Encode4(b0, b1, 0);
    assert s[3] == 'A';
    hide Encode4, Decode4, Char64, Value64;
    assert s[..3][0] == s[0] && s[..3][1] == s[1] && s[..3][2] == s[2];
  }

  lemma {:induction false} GroupsRoundTrip(b: seq<Byte>)
    ensures DecodeGroups(Encode64(b)) == Some(b)
  {
    hide Encode4, Decode4, Char64, Value64;
    if |b| == 1 {
      OneByte(b[0]);
      assert b == [b[0]];
    } else if |b| == 2 {
      TwoBytes(b[0], b[1]);
      assert b == [b[0], b[1]];
    } else if |b| > 2 {
      GroupRoundTrip(b[0], b[1], b[2]);
      GroupsRoundTrip(b[3..]);
      DecodeStep(Encode4(b[0], b[1], b[2]), (b[0], b[1], b[2]), Encode64(b[3..]));
      hide DecodeGroups;
      assert b == [b[0], b[1], b[2]] + b[3..];
    }
  }

  lemma {:induction false} DecodeStep(s: string, g: (Byte, Byte, Byte), tail: string)
    requires |s| == 4 && Decode4(s[0], s[1], s[2], s[3]) == Some(g)
    requires DecodeGroups(tail).Some?
    ensures DecodeGroups(s + tail) == Some([g.0, g.1, g.2] + DecodeGroups(tail).value)
  {
    assert (s + tail)[4..] == tail;
  }

  lemma {:induction false} Base64RoundTrip(b: seq<Byte>)
    ensures Decode64(Encode64(b)) == Some(b)
  {
    EncodeIsClean(b);
    SkipClean(Encode64(b));
    GroupsRoundTrip(b);
  }

  function HexDigit(v: nat): (c: char)
    requires v < 16
    ensures c != '.'
  {
    if v < 10 then ('0' as int + v) as char else ('a' as int + (v - 10)) as char
  }

  function Hex(b: seq<Byte>): (s: string)
    ensures |s| == 2 * |b|
    ensures '.' !in s
  {
    if b == [] then "" else [HexDigit(b[0] / 16), HexDigit(b[0] % 16)] + Hex(b[1..])
  }

  function HexValue(c: char): Option<nat> {
    if '0' <= c <= '9' then Some(c as int - '0' as int)
    else if 'a' <= c <= 'f' then Some(c as int - 'a' as int + 10)
    else None
  }

  /** What a text of lower-case hexadecimal digits, two for each byte, stands for. */
  function FromHex(s: string): Option<seq<Byte>> {
    if s == [] then Some([])
    else if |s| == 1 then None
    else
      var hi, lo, rest := HexValue(s[0]), HexValue(s[1]), FromHex(s[2..]);
      if hi.None? || lo.None? || rest.None? then None else Some([hi.value * 16 + lo.value] + rest.value)
  }

  lemma {:induction false} DigitRead(v: nat)
    requires v < 16
    ensures HexValue(HexDigit(v)) == Some(v)
  {
  }

  lemma {:induction false} DigitOnly(c: char)
    ensures HexValue(c).Some? ==> HexValue(c).value < 16 && HexDigit(HexValue(c).value) == c
  {
  }

  /** The encoder writes the one such text of the bytes. */
  lemma {:induction false} HexIff(s: string, b: seq<Byte>)
    ensures FromHex(s) == Some(b) <==> s == Hex(b)
    decreases |s| + |b|
  {
    if |s| >= 2 && b != [] {
      HexIff(s[2..], b[1..]);
      DigitOnly(s[0]);
      DigitOnly(s[1]);
      DigitRead(b[0] / 16);
      DigitRead(b[0] % 16);
      hide HexValue, HexDigit;
      assert s == [s[0], s[1]] + s[2..] && b == [b[0]] + b[1..];
      assert Hex(b)[2..] == Hex(b[1..]);
      if FromHex(s) == Some(b) {
        assert b[0] == HexValue(s[0]).value * 16 + HexValue(s[1]).value && b[1..] == FromHex(s[2..]).value;
      }
    }
  }

  // ---------- Cursors ----------

  datatype Binding = Binding(resource: string, context: string, tenantId: nat, filterKey: string)

  /** sortKey is None when the row's sort column is SQL NULL, which is not the empty string. */
  datatype Cursor = Cursor(sortKey: Option<string>, id: nat)

  datatype Payload = Payload(version: int, binding: Binding, cursor: Cursor)

  datatype CodecError = SecretMissing | PayloadTooLarge | InvalidCursor

  /** JSON and HMAC-SHA256 are parameters: unmarshal inverts marshal, and nothing is assumed of mac. */
  datatype Codec = Codec(
    marshal: Payload -> seq<Byte>,
    unmarshal: seq<Byte> -> Option<Payload>,
    mac: (seq<Byte>, string) -> seq<Byte>,
    secret: seq<Byte>)
  {
    ghost predicate Valid() {
      && (forall p :: unmarshal(marshal(p)) == Some(p))
      && (forall p :: marshal(p) != [])
    }

    function Signature(encoded: string): string {
      Hex(mac(secret, encoded))
    }
  }

  const PREFIX := "c1."
  const PAYLOAD_VERSION := 1
  const MAX_PAYLOAD_LEN := 2048

  function EncodedPayload(c: Codec, binding: Binding, cursor: Cursor): string {
    Encode64(c.marshal(Payload(PAYLOAD_VERSION, binding, cursor)))
  }

  function EncodeCursor(c: Codec, binding: Binding, cursor: Cursor): Result<string, CodecError> {
    if |c.secret| == 0 then Err(SecretMissing)
    else
      var encoded := EncodedPayload(c, binding, cursor);
      if |encoded| > MAX_PAYLOAD_LEN then Err(PayloadTooLarge)
      else Ok(PREFIX + encoded + "." + c.Signature(encoded))
  }

  predicate UrlSafe(s: string) {
    forall i :: 0 <= i < |s| ==>
                  'A' <= s[i] <= 'Z' || 'a' <= s[i] <= 'z' || '0' <= s[i] <= '9' || s[i] in "-_."
  }

  lemma {:induction false} Encode64UrlSafe(b: seq<Byte>)
    ensures UrlSafe(Encode64(b))
  {
    if |b| >= 3 {
      Encode64UrlSafe(b[3..]);
    }
  }

  lemma {:induction false} HexUrlSafe(b: seq<Byte>)
    ensures UrlSafe(Hex(b))
  {
    if b != [] {
      HexUrlSafe(b[1..]);
    }
  }

  /** A token needs no escaping in a URL. */
  lemma {:induction false} TokenIsUrlSafe(c: Codec, binding: Binding, cursor: Cursor)
    requires EncodeCursor(c, binding, cursor).Ok?
    ensures UrlSafe(EncodeCursor(c, binding, cursor).value)
  {
    var encoded := EncodedPayload(c, binding, cursor);
    Encode64UrlSafe(c.marshal(Payload(PAYLOAD_VERSION, binding, cursor)));
    HexUrlSafe(c.mac(c.secret, encoded));
    hide Encode64, Hex;
  }

  /** The index of the last dot before n, as strings.LastIndex finds it. */
  function LastDot(s: string, n: nat): (r: Option<nat>)
    requires n <= |s|
    ensures r.Some? ==> r.value < n && s[r.value] == '.' && forall j :: r.value < j < n ==> s[j] != '.'
    ensures r.None? ==> forall j :: 0 <= j < n ==> s[j] != '.'
  {
    if n == 0 then None
    else if s[n - 1] == '.' then Some(n - 1)
    else LastDot(s, n - 1)
  }

  /** The payload of a well-formed, correctly signed token of the current version. */
  function OpenToken(c: Codec, token: string): Option<Payload> {
    if token == "" || !(PREFIX <= token) || |c.secret| == 0 then None
    else
      var body := token[|PREFIX|..];
      match LastDot(body, |body|)
      case None => None
      case Some(dot) =>
        var encoded, sigHex := body[..dot], body[dot + 1..];
        if |encoded| == 0 || |encoded| > MAX_PAYLOAD_LEN || sigHex != c.Signature(encoded) then None
        else
          match Decode64(encoded)
          case None => None
          case Some(raw) =>
            var p := c.unmarshal(raw);
            if p.None? || p.value.version != PAYLOAD_VERSION then None else p
  }

  function DecodeCursor(c: Codec, token: string, binding: Binding): Result<Cursor, CodecError> {
    match OpenToken(c, token)
    case None => Err(InvalidCursor)
    case Some(p) => if p.binding != binding then Err(InvalidCursor) else Ok(p.cursor)
  }

  lemma {:induction false} LastDotUnique(a: string, b: string)
    requires '.' !in b
    ensures LastDot(a + "." + b, |a| + 1 + |b|) == Some(|a|)
  {
    var s := a + "." + b;
    assert s[|a|] == '.';
    assert forall j :: |a| < j < |s| ==> s[j] == b[j - |a| - 1];
  }

  /** The token carries the prefix, the hexadecimal MAC of its own payload text under this secret, and a
      current payload. */
  ghost predicate Signed(c: Codec, token: string, p: Payload, encoded: string) {
    && c.secret != []
    && (exists sig :: token == "c1." + (encoded + "." + sig) && FromHex(sig) == Some(c.mac(c.secret, encoded)))
    && 0 < |encoded| <= 2048
    && Decode64(encoded).Some?
    && c.unmarshal(Decode64(encoded).value) == Some(p)
    && p.version == 1
  }

  lemma {:induction false} SignedBy(c: Codec, token: string, p: Payload, encoded: string)
    requires Signed(c, token, p, encoded)
    ensures token == PREFIX + (encoded + "." + c.Signature(encoded))
  {
    var sig :| token == "c1." + (encoded + "." + sig) && FromHex(sig) == Some(c.mac(c.secret, encoded));
    HexIff(sig, c.mac(c.secret, encoded));
  }

  lemma {:induction false} SignedOpens(c: Codec, token: string, p: Payload, encoded: string)
    requires Signed(c, token, p, encoded)
    ensures OpenToken(c, token) == Some(p)
  {
    SignedBy(c, token, p, encoded);
    TokenParts(encoded, c.Signature(encoded));
    assert c.secret != [] && 0 < |encoded| <= MAX_PAYLOAD_LEN && Decode64(encoded).Some?
           && c.unmarshal(Decode64(encoded).value) == Some(p) && p.version == PAYLOAD_VERSION;
    hide Decode64, LastDot, Signed, Codec.Signature;
  }

  lemma {:induction false} TokenParts(encoded: string, sig: string)
    requires '.' !in sig
    ensures var token := PREFIX + (encoded + "." + sig);
      var body := token[|PREFIX|..];
      && token != "" && PREFIX <= token && LastDot(body, |body|) == Some(|encoded|)
      && body[..|encoded|] == encoded && body[|encoded| + 1..] == sig
  {
    var body := encoded + "." + sig;
    assert (PREFIX + body)[|PREFIX|..] == body;
    LastDotUnique(encoded, sig);
    hide LastDot;
    assert body[..|encoded|] == encoded && body[|encoded| + 1..] == sig;
  }

  /** Every token the encoder emits passes the prefix, split, length and signature checks,
      and decodes under its own binding only. */
  lemma {:induction false} EmittedTokenDecodes(c: Codec, binding: Binding, cursor: Cursor, reader: Binding)
    requires c.Valid()
    requires EncodeCursor(c, binding, cursor).Ok?
    ensures DecodeCursor(c, EncodeCursor(c, binding, cursor).value, reader)
         == if reader == binding then Ok(cursor) else Err(InvalidCursor)
  {
    var p := Payload(PAYLOAD_VERSION, binding, cursor);
    EncodeIsClean(c.marshal(p));
    Base64RoundTrip(c.marshal(p));
    var token := EncodeCursor(c, binding, cursor).value;
    var encoded := EncodedPayload(c, binding, cursor);
    assert token == PREFIX + (encoded + "." + c.Signature(encoded));
    HexIff(c.Signature(encoded), c.mac(c.secret, encoded));
    hide Decode64, Encode64, FromHex;
    assert Signed(c, token, p, encoded);
    SignedOpens(c, token, p, encoded);
  }

  /** A token is issued exactly when there is a secret and the JSON text has at most 1536 bytes. */
  lemma {:induction false} IssuedIff(c: Codec, binding: Binding, cursor: Cursor)
    ensures EncodeCursor(c, binding, cursor).Ok? <==>
      c.secret != [] && |c.marshal(Payload(1, binding, cursor))| <= 1536
  {
    EncodeIsClean(c.marshal(Payload(1, binding, cursor)));
  }

  /** A token is accepted exactly when it is signed over a payload with the reader's binding:
      no other string is ever read as a cursor. */
  lemma {:induction false} AcceptedIffSigned(c: Codec, token: string, reader: Binding, cursor: Cursor)
    ensures DecodeCursor(c, token, reader) == Ok(cursor)
       <==> exists encoded :: Signed(c, token, Payload(PAYLOAD_VERSION, reader, cursor), encoded)
  {
    if DecodeCursor(c, token, reader) == Ok(cursor) {
      var body := token[|PREFIX|..];
      var dot := LastDot(body, |body|).value;
      assert body == body[..dot] + "." + body[dot + 1..];
      assert token == PREFIX + body;
      HexIff(body[dot + 1..], c.mac(c.secret, body[..dot]));
      hide Decode64, FromHex, LastDot;
      assert token == "c1." + (body[..dot] + "." + body[dot + 1..]);
      assert Signed(c, token, OpenToken(c, token).value, body[..dot]);
    }
    if encoded :| Signed(c, token, Payload(PAYLOAD_VERSION, reader, cursor), encoded) {
      SignedOpens(c, token, Payload(PAYLOAD_VERSION, reader, cursor), encoded);
    }
  }
}
