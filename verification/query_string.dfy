/** How a value interpolated into a same-origin request URL as `path?name=${raw}`
    reaches a route handler that reads it back with `searchParams.get(name)`,
    following the WHATWG URL Standard (basic URL parser) and its
    application/x-www-form-urlencoded parser; and `encodeURIComponent`, which
    makes that trip lossless. */
module QueryString {
  import opened Text

  /** C0 control or space: the URL parser strips these from both ends of the
      whole URL, so from the end of a value that closes the URL. */
  predicate IsC0OrSpace(c: char)
  {
    c as int <= 0x20
  }

  /** ASCII tab or newline: the URL parser deletes these anywhere in the URL. */
  predicate IsTabOrNewline(c: char)
  {
    c == '\t' || c == '\n' || c == '\r'
  }

  function TrimEndC0Space(s: string): (r: string)
    ensures |r| <= |s| && r == s[..|r|]
    ensures forall i :: |r| <= i < |s| ==> IsC0OrSpace(s[i])
    ensures r == [] || !IsC0OrSpace(r[|r| - 1])
  {
    if |s| > 0 && IsC0OrSpace(s[|s| - 1]) then TrimEndC0Space(s[..|s| - 1]) else s
  }

  function RemoveTabNewline(s: string): (r: string)
    ensures |r| <= |s|
    ensures forall i :: 0 <= i < |r| ==> !IsTabOrNewline(r[i])
    ensures (forall i :: 0 <= i < |s| ==> !IsTabOrNewline(s[i])) ==> r == s
  {
    if s == [] then []
    else if IsTabOrNewline(s[0]) then RemoveTabNewline(s[1..])
    else [s[0]] + RemoveTabNewline(s[1..])
  }

  predicate IsHexDigit(c: char)
  {
    '0' <= c <= '9' || 'A' <= c <= 'F' || 'a' <= c <= 'f'
  }

  function HexValue(c: char): (n: nat)
    requires IsHexDigit(c)
    ensures n < 16
  {
    if '0' <= c <= '9' then c as int - '0' as int
    else if 'A' <= c <= 'F' then c as int - 'A' as int + 10
    else c as int - 'a' as int + 10
  }

  /** The upper-case hexadecimal digit `encodeURIComponent` writes for `n`. */
  function HexDigit(n: nat): (c: char)
    requires n < 16
    ensures IsHexDigit(c) && HexValue(c) == n
  {
    if n < 10 then ('0' as int + n) as char else ('A' as int + n - 10) as char
  }

  /** Decoding of one application/x-www-form-urlencoded value: `+` is a space and
      `%XY` with two hex digits is the byte XY; a `%` without two hex digits
      after it stays as it is. Only escapes of ASCII bytes are decoded. */
  function FormDecode(s: string): (r: string)
    ensures |r| <= |s|
    ensures ('+' !in s && '%' !in s) ==> r == s
    decreases |s|
  {
    if s == [] then []
    else if s[0] == '+' then [' '] + FormDecode(s[1..])
    else if s[0] == '%' && |s| >= 3 && IsHexDigit(s[1]) && IsHexDigit(s[2]) && HexValue(s[1]) < 8 then
      [(HexValue(s[1]) * 16 + HexValue(s[2])) as char] + FormDecode(s[3..])
    else [s[0]] + FormDecode(s[1..])
  }

  /** `s` with every `+` turned into a space. */
  function PlusToSpace(s: string): (r: string)
    ensures |r| == |s|
    ensures forall i :: 0 <= i < |s| ==> r[i] == (if s[i] == '+' then ' ' else s[i])
  {
    seq(|s|, i requires 0 <= i < |s| => if s[i] == '+' then ' ' else s[i])
  }

  /** With no `%` in it, decoding a value only turns its `+` signs into spaces. */
  lemma {:induction false} FormDecodeWithoutEscapes(s: string)
    requires '%' !in s
    ensures FormDecode(s) == PlusToSpace(s)
    decreases |s|
  {
    if s != [] {
      assert '%' !in s[1..];
      FormDecodeWithoutEscapes(s[1..]);
      assert PlusToSpace(s) == [PlusToSpace(s)[0]] + PlusToSpace(s[1..]);
    }
  }

  /** What the route handler reads back for a value written raw as the last part
      of the request URL: the end of the URL is trimmed of C0 controls and spaces,
      tabs and newlines are deleted, a `#` starts the fragment, a `&` starts the
      next parameter, and what remains is form-decoded. */
  function ReceivedValue(raw: string): string
  {
    FormDecode(FirstSegment(FirstSegment(RemoveTabNewline(TrimEndC0Space(raw)), '#'), '&'))
  }

  /** The characters `encodeURIComponent` leaves as they are. */
  predicate IsUnreserved(c: char)
  {
    || 'A' <= c <= 'Z' || 'a' <= c <= 'z' || '0' <= c <= '9'
    || c == '-' || c == '_' || c == '.' || c == '!' || c == '~' || c == '*'
    || c == '\'' || c == '(' || c == ')'
  }

  /** One character of `encodeURIComponent`'s output. A character outside ASCII is
      kept: the URL parser percent-encodes its UTF-8 bytes and the route decodes
      them back, so it survives the trip unchanged either way. */
  function EncodeChar(c: char): string
  {
    if IsUnreserved(c) || c as int >= 128 then [c]
    else ['%', HexDigit(c as int / 16), HexDigit(c as int % 16)]
  }

  /** `encodeURIComponent`. */
  function EncodeComponent(s: string): (r: string)
    ensures |s| <= |r| <= 3 * |s|
    decreases |s|
  {
    if s == [] then [] else EncodeChar(s[0]) + EncodeComponent(s[1..])
  }

  /** A character that passes through the URL parser and the parameter
      splitter untouched. */
  predicate PassesThrough(c: char)
  {
    IsUnreserved(c) || c as int >= 128 || c == '%'
  }

  lemma {:induction false} EncodedPassesThrough(s: string)
    ensures forall i :: 0 <= i < |EncodeComponent(s)| ==> PassesThrough(EncodeComponent(s)[i])
    decreases |s|
  {
    if s != [] {
      EncodedPassesThrough(s[1..]);
      var e := EncodeChar(s[0]);
      assert forall i :: 0 <= i < |e| ==> PassesThrough(e[i]);
      assert EncodeComponent(s) == e + EncodeComponent(s[1..]);
    }
  }

  /** Decoding the encoding of one character gives the character back, and
      decoding carries on right after that encoding. */
  lemma FormDecodeEncodedChar(c: char, rest: string)
    ensures FormDecode(EncodeChar(c) + rest) == [c] + FormDecode(rest)
  {
    var t := EncodeChar(c) + rest;
    if IsUnreserved(c) || c as int >= 128 {
      assert t[1..] == rest;
    } else {
      var hi := c as int / 16;
      var lo := c as int % 16;
      assert t[0] == '%' && t[1] == HexDigit(hi) && t[2] == HexDigit(lo);
      assert t[3..] == rest;
      assert (hi * 16 + lo) as char == c;
    }
  }

  lemma {:induction false} FormDecodeEncoded(s: string)
    ensures FormDecode(EncodeComponent(s)) == s
    decreases |s|
  {
    if s != [] {
      FormDecodeEncoded(s[1..]);
      FormDecodeEncodedChar(s[0], EncodeComponent(s[1..]));
      assert s == [s[0]] + s[1..];
    }
  }

  /** A character the URL parser and the parameter splitter leave alone. */
  predicate Plain(c: char)
  {
    !IsC0OrSpace(c) && c != '#' && c != '&'
  }

  /** A character that every step from the raw URL to the decoded value keeps
      as it is. */
  predicate Verbatim(c: char)
  {
    Plain(c) && c != '%' && c != '+'
  }

  predicate AllVerbatim(s: string)
  {
    forall i :: 0 <= i < |s| ==> Verbatim(s[i])
  }

  /** A value made of plain characters reaches the route only form-decoded. */
  lemma ReceivedValueOfPlain(e: string)
    requires forall i :: 0 <= i < |e| ==> Plain(e[i])
    ensures ReceivedValue(e) == FormDecode(e)
  {
    assert TrimEndC0Space(e) == e;
    assert RemoveTabNewline(e) == e;
    assert '#' !in e;
    FirstSegmentNoSeparator(e, '#');
    assert '&' !in e;
    FirstSegmentNoSeparator(e, '&');
  }

  /** A value whose characters the URL keeps verbatim arrives unchanged. */
  lemma ReceivedValueOfVerbatim(e: string)
    ensures AllVerbatim(e) ==> ReceivedValue(e) == e
  {
    if AllVerbatim(e) {
      ReceivedValueOfPlain(e);
    }
  }

  /** A value passed through `encodeURIComponent` before it is interpolated
      arrives at the route handler exactly as it was. */
  lemma EncodeComponentRoundTrip(s: string)
    ensures ReceivedValue(EncodeComponent(s)) == s
  {
    var e := EncodeComponent(s);
    EncodedPassesThrough(s);
    assert forall i :: 0 <= i < |e| ==> Plain(e[i]);
    ReceivedValueOfPlain(e);
    FormDecodeEncoded(s);
  }
}
