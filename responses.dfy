/**
 * The server's response writers `writeJSON` and `writeError`, and the part
 * of Go's `encoding/json` they depend on for error bodies: the encoding of
 * a string as a JSON string literal (with the HTML-safe escapes an
 * `Encoder` applies by default) and the newline `Encoder.Encode` appends.
 * A JSON string reader in the sense of section 7 of RFC 8259 is the
 * encoder's partner: reading an encoded string gives the string back.
 */
module Responses {
  import opened Types

  /** What a handler writes: an error body, a JSON payload, or only a status. */
  datatype Reply<T> =
    | ErrorReply(status: int, message: string)  // `writeError`
    | JsonReply(status: int, payload: T)        // `writeJSON` with a success payload
    | EmptyReply(status: int)                   // `w.WriteHeader` alone

  /** A response as it goes on the wire: status, Content-Type header and body. */
  datatype HttpResponse = HttpResponse(status: int, contentType: string, body: string)

  const StatusOK := 200
  const StatusCreated := 201
  const StatusNoContent := 204
  const StatusBadRequest := 400
  const StatusUnauthorized := 401
  const StatusNotFound := 404
  const StatusInternalServerError := 500

  /** The two error messages both the session and the message handlers write. */
  const InternalError: string := "internal server error"
  const InvalidBody: string := "invalid request body"

  function HexDigit(d: nat): (c: char)
    requires d < 16
    ensures IsHexDigit(c) && HexValue(c) == d
  {
    "0123456789abcdef"[d]
  }

  predicate IsHexDigit(c: char)
  {
    ('0' <= c <= '9') || ('a' <= c <= 'f') || ('A' <= c <= 'F')
  }

  function HexValue(c: char): (d: nat)
    requires IsHexDigit(c)
    ensures d < 16
  {
    if '0' <= c <= '9' then c as int - '0' as int
    else if 'a' <= c <= 'f' then c as int - 'a' as int + 10
    else c as int - 'A' as int + 10
  }

  /** `\u` followed by four lowercase hex digits, the form `encoding/json` writes. */
  function UnicodeEscape(u: nat): (r: string)
    requires u < 0x1_0000
    ensures |r| == 6
  {
    ['\\', 'u', HexDigit(u / 16 / 16 / 16), HexDigit(u / 16 / 16 % 16), HexDigit(u / 16 % 16), HexDigit(u % 16)]
  }

  /** The four hex digits `UnicodeEscape` writes add back up to `u`. */
  lemma Nibbles(u: nat)
    requires u < 0x1_0000
    ensures (u / 16 / 16 / 16) * 0x1000 + (u / 16 / 16 % 16) * 0x100 + (u / 16 % 16) * 16 + u % 16 == u
  {
    var q1 := u / 16;
    var q2 := q1 / 16;
    var q3 := q2 / 16;
    assert u == q1 * 16 + u % 16;
    assert q1 == q2 * 16 + q1 % 16;
    assert q2 == q3 * 16 + q2 % 16;
  }

  /**
   * How `encoding/json` writes one character inside a string literal:
   * quote and backslash get a backslash, the five control characters with
   * a short form use it, every other control character and the HTML-special
   * `<`, `>` and `&` become `\u00XX`, and U+2028/U+2029 become `\u2028`/`\u2029`.
   */
  function EscapeChar(c: char): (r: string)
    ensures |r| >= 1
  {
    if c == '"' then "\\\""
    else if c == '\\' then "\\\\"
    else if c == '\n' then "\\n"
    else if c == '\r' then "\\r"
    else if c == '\t' then "\\t"
    else if c == '\U{8}' then "\\b"
    else if c == '\U{C}' then "\\f"
    else if (c as int) < 0x20 || c == '<' || c == '>' || c == '&' || c == '\U{2028}' || c == '\U{2029}'
    then UnicodeEscape(c as int)
    else [c]
  }

  /** The characters between the quotes of the JSON encoding of `s`. */
  function EscapeJson(s: string): (r: string)
    ensures |r| >= |s|
  {
    if s == [] then [] else EscapeChar(s[0]) + EscapeJson(s[1..])
  }

  function Quote(s: string): string
  {
    "\"" + EscapeJson(s) + "\""
  }

  /** A character `encoding/json` writes as itself. */
  predicate IsPlain(c: char)
  {
    0x20 <= c as int <= 0x7E && c != '"' && c != '\\' && c != '<' && c != '>' && c != '&'
  }

  function ShortEscape(c: char): (r: Option<char>)
  {
    if c == '"' then Some('"')
    else if c == '\\' then Some('\\')
    else if c == '/' then Some('/')
    else if c == 'b' then Some('\U{8}')
    else if c == 'f' then Some('\U{C}')
    else if c == 'n' then Some('\n')
    else if c == 'r' then Some('\r')
    else if c == 't' then Some('\t')
    else None
  }

  /** Reads four hex digits at the front of `s` as a code point, if they form one that is not a surrogate. */
  function HexQuad(s: string): (r: Option<char>)
    requires |s| >= 4
  {
    if IsHexDigit(s[0]) && IsHexDigit(s[1]) && IsHexDigit(s[2]) && IsHexDigit(s[3]) then
      var v := HexValue(s[0]) * 0x1000 + HexValue(s[1]) * 0x100 + HexValue(s[2]) * 16 + HexValue(s[3]);
      if 0xD800 <= v < 0xE000 then None else Some(v as char)
    else None
  }

  /**
   * Reads the characters between the quotes of a JSON string literal
   * (section 7 of RFC 8259): a raw quote or control character is an error,
   * and `\u` escapes that name surrogates are not accepted.
   */
  function UnescapeJson(s: string): (r: Option<string>)
    decreases |s|
  {
    if s == [] then Some([])
    else if s[0] == '\\' then
      if |s| >= 2 && ShortEscape(s[1]).Some? then Prepend(ShortEscape(s[1]).value, UnescapeJson(s[2..]))
      else if |s| >= 6 && s[1] == 'u' && HexQuad(s[2..6]).Some? then Prepend(HexQuad(s[2..6]).value, UnescapeJson(s[6..]))
      else None
    else if s[0] == '"' || (s[0] as int) < 0x20 then None
    else Prepend(s[0], UnescapeJson(s[1..]))
  }

  function Prepend(c: char, r: Option<string>): Option<string>
  {
    match r
    case None => None
    case Some(t) => Some([c] + t)
  }

  lemma UnicodeEscapeReads(u: nat, rest: string)
    requires u < 0x1_0000 && !(0xD800 <= u < 0xE000)
    ensures UnescapeJson(UnicodeEscape(u) + rest) == Prepend(u as char, UnescapeJson(rest))
  {
    var e := UnicodeEscape(u) + rest;
    Nibbles(u);
    assert e[0] == '\\' && e[1] == 'u';
    assert e[2..6] == UnicodeEscape(u)[2..6];
    assert e[6..] == rest;
    assert HexQuad(e[2..6]) == Some(u as char);
  }

  /** Reading back one escaped character gives that character. */
  lemma EscapeCharReads(c: char, rest: string)
    ensures UnescapeJson(EscapeChar(c) + rest) == Prepend(c, UnescapeJson(rest))
  {
    var e := EscapeChar(c) + rest;
    if c == '"' || c == '\\' || c == '\n' || c == '\r' || c == '\t' || c == '\U{8}' || c == '\U{C}' {
      assert e[0] == '\\' && e[2..] == rest;
    } else if (c as int) < 0x20 || c == '<' || c == '>' || c == '&' || c == '\U{2028}' || c == '\U{2029}' {
      UnicodeEscapeReads(c as int, rest);
    } else {
      assert e[0] == c && e[1..] == rest;
    }
  }

  /** `encoding/json` string encoding round-trips: the reader gives back the encoded string. */
  lemma {:induction false} EscapeJsonRoundTrip(s: string)
    ensures UnescapeJson(EscapeJson(s)) == Some(s)
  {
    if s != [] {
      EscapeCharReads(s[0], EscapeJson(s[1..]));
      EscapeJsonRoundTrip(s[1..]);
      assert [s[0]] + s[1..] == s;
    }
  }

  /** A message of plain printable ASCII is written exactly as it is. */
  lemma {:induction false} EscapePlain(s: string)
    requires forall i :: 0 <= i < |s| ==> IsPlain(s[i])
    ensures EscapeJson(s) == s
  {
    if s != [] {
      EscapePlain(s[1..]);
      assert EscapeChar(s[0]) == [s[0]];
      assert [s[0]] + s[1..] == s;
    }
  }

  /** `writeJSON`'s header and status; the body of a success payload is not modelled here. */
  function ErrorResponse(status: int, message: string): (r: HttpResponse)
  {
    HttpResponse(status, "application/json", "{\"error\":" + Quote(message) + "}\n")
  }

  /**
   * `writeError` writes the one-key object `{"error":…}` followed by a
   * newline, and the string inside reads back as the message.
   */
  lemma ErrorResponseShape(status: int, message: string)
    ensures var r := ErrorResponse(status, message);
            && r.status == status && r.contentType == "application/json"
            && |r.body| >= 13
            && r.body[..10] == "{\"error\":\"" && r.body[|r.body| - 3..] == "\"}\n"
            && UnescapeJson(r.body[10..|r.body| - 3]) == Some(message)
  {
    var e := EscapeJson(message);
    var body := ErrorResponse(status, message).body;
    assert body == "{\"error\":\"" + e + "\"}\n";
    assert body[10..|body| - 3] == e;
    EscapeJsonRoundTrip(message);
  }

  /** For a plain ASCII message the body is literally `{"error":"<message>"}` and a newline. */
  lemma ErrorResponsePlain(status: int, message: string)
    requires forall i :: 0 <= i < |message| ==> IsPlain(message[i])
    ensures ErrorResponse(status, message).body == "{\"error\":\"" + message + "\"}\n"
  {
    EscapePlain(message);
  }

  /** A character that may appear in an encoded string without breaking out of an HTML `<script>` or a JavaScript string. */
  predicate IsSafeOutput(c: char)
  {
    c as int >= 0x20 && c != '<' && c != '>' && c != '&' && c != '\U{2028}' && c != '\U{2029}'
  }

  predicate AllSafe(t: string)
  {
    forall i :: 0 <= i < |t| ==> IsSafeOutput(t[i])
  }

  lemma UnicodeEscapeSafe(u: nat)
    requires u < 0x1_0000
    ensures AllSafe(UnicodeEscape(u))
  {
    var r := UnicodeEscape(u);
    forall i | 0 <= i < 6
      ensures IsSafeOutput(r[i])
    {
      if i >= 2 {
        assert IsHexDigit(r[i]);
      }
    }
  }

  lemma EscapeCharSafe(c: char)
    ensures AllSafe(EscapeChar(c))
  {
    var r := EscapeChar(c);
    if c == '"' || c == '\\' || c == '\n' || c == '\r' || c == '\t' || c == '\U{8}' || c == '\U{C}' {
      assert |r| == 2 && r[0] == '\\';
      assert r[1] in "\"\\nrtbf";
    } else if (c as int) < 0x20 || c == '<' || c == '>' || c == '&' || c == '\U{2028}' || c == '\U{2029}' {
      UnicodeEscapeSafe(c as int);
    } else {
      assert r == [c];
    }
  }

  lemma AllSafeConcat(a: string, b: string)
    requires AllSafe(a) && AllSafe(b)
    ensures AllSafe(a + b)
  {
    forall i | 0 <= i < |a + b|
      ensures IsSafeOutput((a + b)[i])
    {
      if i < |a| {
        assert (a + b)[i] == a[i];
      } else {
        assert (a + b)[i] == b[i - |a|];
      }
    }
  }

  /**
   * The HTML-safe encoding leaves no raw `<`, `>`, `&`, control character
   * or line/paragraph separator in its output.
   */
  lemma {:induction false} EscapeJsonSafe(s: string)
    ensures AllSafe(EscapeJson(s))
  {
    if s != [] {
      var a := EscapeChar(s[0]);
      var b := EscapeJson(s[1..]);
      EscapeCharSafe(s[0]);
      EscapeJsonSafe(s[1..]);
      AllSafeConcat(a, b);
    }
  }
}
