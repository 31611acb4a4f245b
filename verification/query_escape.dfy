/**
 * Percent-encoding of one query component, as Go's `url.QueryEscape` does it
 * (the encoding `url.Values.Encode` applies to every key and value), and the
 * matching decoder `url.QueryUnescape`.
 *
 * Letters, digits and `-` `_` `.` `~` are kept, a space becomes `+`, and
 * every other byte becomes `%` followed by two upper-case hex digits.
 */
module QueryEscape {
  import opened Wrappers
  import opened ByteStrings

  /** The bytes the escaper leaves alone. */
  predicate Unreserved(b: Byte)
  {
    ('a' <= b <= 'z') || ('A' <= b <= 'Z') || ('0' <= b <= '9') ||
    b == '-' || b == '_' || b == '.' || b == '~'
  }

  /** The bytes that can appear in escaped output. */
  predicate EscapedAlphabet(b: Byte)
  {
    Unreserved(b) || b == '+' || b == '%'
  }

  function UpperHex(n: nat): (b: Byte)
    requires n < 16
    ensures Unreserved(b)
  {
    "0123456789ABCDEF"[n]
  }

  /** The value of a hex digit of either case. */
  function HexValue(b: Byte): (r: Option<nat>)
    ensures r.Some? ==> r.value < 16
  {
    if '0' <= b <= '9' then Some(b as int - '0' as int)
    else if 'A' <= b <= 'F' then Some(b as int - 'A' as int + 10)
    else if 'a' <= b <= 'f' then Some(b as int - 'a' as int + 10)
    else None
  }

  function EscapeByte(b: Byte): (r: Bytes)
    ensures 1 <= |r| <= 3
    ensures forall i :: 0 <= i < |r| ==> EscapedAlphabet(r[i])
  {
    if Unreserved(b) then [b]
    else if b == ' ' then ['+']
    else ['%', UpperHex(b as int / 16), UpperHex(b as int % 16)]
  }

  /** `url.QueryEscape`: escapes each byte in turn. */
  function Escape(s: Bytes): (r: Bytes)
    ensures |s| <= |r| <= 3 * |s|
    ensures forall i :: 0 <= i < |r| ==> EscapedAlphabet(r[i])
  {
    if s == [] then [] else EscapeByte(s[0]) + Escape(s[1..])
  }

  /** `url.QueryUnescape`: `+` is a space, `%XY` is the byte 0xXY, and a `%` without two hex digits is an error. */
  function Unescape(s: Bytes): Option<Bytes>
    decreases |s|
  {
    if s == [] then Some([])
    else if s[0] == '%' then
      if |s| >= 3 && HexValue(s[1]).Some? && HexValue(s[2]).Some? then
        Prepend(ByteOf(HexValue(s[1]).value * 16 + HexValue(s[2]).value), Unescape(s[3..]))
      else None
    else if s[0] == '+' then Prepend(' ', Unescape(s[1..]))
    else Prepend(s[0], Unescape(s[1..]))
  }

  function Prepend(b: Byte, rest: Option<Bytes>): Option<Bytes>
  {
    match rest
    case None => None
    case Some(t) => Some([b] + t)
  }

  lemma HexRoundTrip(n: nat)
    requires n < 16
    ensures HexValue(UpperHex(n)) == Some(n)
  {
  }

  lemma UnescapeEscapeByte(b: Byte, rest: Bytes)
    ensures Unescape(EscapeByte(b) + rest) == Prepend(b, Unescape(rest))
  {
    var s := EscapeByte(b) + rest;
    if Unreserved(b) {
      assert s[0] == b && s[1..] == rest;
    } else if b == ' ' {
      assert s[0] == '+' && s[1..] == rest;
    } else {
      HexRoundTrip(b as int / 16);
      HexRoundTrip(b as int % 16);
      assert s[3..] == rest;
    }
  }

  /** Decoding undoes escaping: every byte string survives the round trip. */
  lemma {:induction false} UnescapeEscape(s: Bytes)
    ensures Unescape(Escape(s)) == Some(s)
  {
    if s != [] {
      UnescapeEscape(s[1..]);
      UnescapeEscapeByte(s[0], Escape(s[1..]));
      assert [s[0]] + s[1..] == s;
    }
  }

  /** Escaped text never contains the query separators `&` and `=`. */
  lemma EscapeAvoidsSeparators(s: Bytes)
    ensures '&' !in Escape(s) && '=' !in Escape(s)
  {
  }

  /** Text made only of unreserved bytes is emitted unchanged. */
  lemma {:induction false} EscapeKeepsUnreserved(s: Bytes)
    requires forall i :: 0 <= i < |s| ==> Unreserved(s[i])
    ensures Escape(s) == s
  {
    if s != [] {
      EscapeKeepsUnreserved(s[1..]);
      assert [s[0]] + s[1..] == s;
    }
  }

  /** Escaping works byte by byte, so it distributes over concatenation. */
  lemma {:induction false} EscapeConcat(a: Bytes, b: Bytes)
    ensures Escape(a + b) == Escape(a) + Escape(b)
  {
    if a == [] {
      assert a + b == b;
    } else {
      assert (a + b)[1..] == a[1..] + b;
      EscapeConcat(a[1..], b);
    }
  }

  /** Brackets, as in the device-context keys, become `%5B` and `%5D`. */
  lemma EscapeBrackets()
    ensures Escape("[") == "%5B" && Escape("]") == "%5D" && Escape(" ") == "+"
  {
    assert Escape("[") == EscapeByte('[');
    assert Escape("]") == EscapeByte(']');
  }
}
