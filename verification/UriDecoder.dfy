/**
 Percent-decoding of URIs: `UriDecoder` and `UriDecoder::HexCharPairToByte`.

 The specification follows section 2.1 of RFC 3986: a percent-encoded octet is a '%' and two
 hexadecimal digits, in either case.
 */
module UriDecoding {
  import opened Options

  newtype byte = x: int | 0 <= x < 256

  const PERCENT: byte := 0x25

  // ---------- Specification ----------

  function HexValue(c: byte): Option<int> {
    if 0x30 <= c <= 0x39 then Some(c as int - 0x30)
    else if 0x41 <= c <= 0x46 then Some(c as int - 0x37)
    else if 0x61 <= c <= 0x66 then Some(c as int - 0x57)
    else None
  }

  predicate IsHex(c: byte) {
    HexValue(c).Some?
  }

  function PairValue(hi: byte, lo: byte): byte
    requires IsHex(hi) && IsHex(lo)
  {
    (16 * HexValue(hi).value + HexValue(lo).value) as byte
  }

  predicate EscapeAt(s: seq<byte>, i: nat) {
    i + 2 < |s| && s[i] == PERCENT && IsHex(s[i + 1]) && IsHex(s[i + 2])
  }

  function Decode(s: seq<byte>): Option<seq<byte>>
    decreases |s|
  {
    if s == [] then Some([])
    else if s[0] != PERCENT then
      match Decode(s[1..]) case None => None case Some(t) => Some([s[0]] + t)
    else if EscapeAt(s, 0) then
      match Decode(s[3..]) case None => None case Some(t) => Some([PairValue(s[1], s[2])] + t)
    else None
  }

  // ---------- Decoding inverts every encoding ----------

  /**
   `s` is an encoding of `t`: some octets of `t` stand for themselves, the others, and every
   '%', are escaped, with digits of either case.
   */
  ghost predicate Encodes(s: seq<byte>, t: seq<byte>)
    decreases |t|
  {
    if t == [] then s == []
    else
      || (s != [] && s[0] != PERCENT && s[0] == t[0] && Encodes(s[1..], t[1..]))
      || (EscapeAt(s, 0) && PairValue(s[1], s[2]) == t[0] && Encodes(s[3..], t[1..]))
  }

  /** Decoding answers `t` on exactly the encodings of `t`. */
  lemma {:induction false} DecodeInvertsEncoding(s: seq<byte>, t: seq<byte>)
    ensures Decode(s) == Some(t) <==> Encodes(s, t)
    decreases |s|
  {
    if s != [] && t != [] {
      if s[0] != PERCENT {
        DecodeInvertsEncoding(s[1..], t[1..]);
        assert t == [t[0]] + t[1..];
      } else if EscapeAt(s, 0) {
        DecodeInvertsEncoding(s[3..], t[1..]);
        assert t == [t[0]] + t[1..];
      }
    }
  }

  function HexDigit(v: int): (c: byte)
    requires 0 <= v < 16
    ensures HexValue(c) == Some(v)
  {
    if v < 10 then (0x30 + v) as byte else (0x37 + v) as byte
  }

  const UPPER_DIGITS := "0123456789ABCDEF"
  const LOWER_DIGITS := "0123456789abcdef"

  /** The digit of a value, in either case, and nothing else has that value. */
  lemma HexDigitsExact(c: byte, v: nat)
    requires v < 16
    ensures HexValue(c) == Some(v) <==> c as int == UPPER_DIGITS[v] as int || c as int == LOWER_DIGITS[v] as int
  {
  }

  /** The encoder of section 2.1 of RFC 3986, escaping whatever `escape` asks for. */
  function Encode(escape: byte -> bool, t: seq<byte>): seq<byte> {
    if t == [] then []
    else if t[0] == PERCENT || escape(t[0]) then
      [PERCENT, HexDigit(t[0] as int / 16), HexDigit(t[0] as int % 16)] + Encode(escape, t[1..])
    else [t[0]] + Encode(escape, t[1..])
  }

  /** Whatever else is escaped, decoding gives back the text. */
  lemma {:induction false} DecodeEncode(escape: byte -> bool, t: seq<byte>)
    ensures Decode(Encode(escape, t)) == Some(t)
  {
    if t != [] {
      DecodeEncode(escape, t[1..]);
      var e, rest := Encode(escape, t), Encode(escape, t[1..]);
      assert t == [t[0]] + t[1..];
      if t[0] == PERCENT || escape(t[0]) {
        assert e[3..] == rest;
        assert EscapeAt(e, 0);
      } else {
        assert e[1..] == rest;
      }
    }
  }

  // ---------- Exactly which inputs are rejected ----------

  /** Every '%' is followed by two hexadecimal digits. */
  ghost predicate WellEscaped(s: seq<byte>) {
    forall i :: 0 <= i < |s| && s[i] == PERCENT ==> EscapeAt(s, i)
  }

  lemma WellEscapedDrop(s: seq<byte>, n: nat)
    requires n <= |s| && (forall i :: 0 <= i < n && s[i] == PERCENT ==> EscapeAt(s, i))
    ensures WellEscaped(s) <==> WellEscaped(s[n..])
  {
    var r := s[n..];
    forall i | 0 <= i < |r| ensures EscapeAt(r, i) == EscapeAt(s, n + i) {
      assert r[i] == s[n + i];
    }
    if WellEscaped(r) {
      forall i | n <= i < |s| && s[i] == PERCENT ensures EscapeAt(s, i) {
        assert r[i - n] == PERCENT;
      }
    }
    if WellEscaped(s) {
      forall i | 0 <= i < |r| && r[i] == PERCENT ensures EscapeAt(r, i) {
        assert s[n + i] == PERCENT;
      }
    }
  }

  /** Decoding fails exactly when some '%' lacks its two digits. */
  lemma {:induction false} DecodeRejects(s: seq<byte>)
    ensures Decode(s).Some? <==> WellEscaped(s)
    decreases |s|
  {
    if s != [] {
      if s[0] != PERCENT {
        WellEscapedDrop(s, 1);
        DecodeRejects(s[1..]);
      } else if EscapeAt(s, 0) {
        WellEscapedDrop(s, 3);
        DecodeRejects(s[3..]);
      }
    }
  }

  // ---------- Exactly which inputs decode to a NUL ----------

  predicate NulEscapeAt(s: seq<byte>, i: nat) {
    i + 2 < |s| && s[i] == PERCENT && s[i + 1] == 0x30 && s[i + 2] == 0x30
  }

  /** Some escape stands for NUL. */
  ghost predicate NulEscaped(s: seq<byte>) {
    exists i: nat :: NulEscapeAt(s, i)
  }

  lemma NulEscapedDrop(s: seq<byte>, n: nat)
    requires n <= |s| && forall i :: 0 <= i < n ==> !NulEscapeAt(s, i)
    ensures NulEscaped(s) <==> NulEscaped(s[n..])
  {
    var r := s[n..];
    if NulEscaped(s) {
      var i: nat :| NulEscapeAt(s, i);
      assert NulEscapeAt(r, i - n);
    }
    if NulEscaped(r) {
      var i: nat :| NulEscapeAt(r, i);
      assert NulEscapeAt(s, i + n);
    }
  }

  /** The decoded text of a C string has a NUL exactly when the string has an escape for one. */
  lemma {:induction false} DecodesNul(s: seq<byte>)
    requires Decode(s).Some? && forall i :: 0 <= i < |s| ==> s[i] != 0
    ensures 0 in Decode(s).value <==> NulEscaped(s)
    decreases |s|
  {
    if s != [] {
      if s[0] != PERCENT {
        NulEscapedDrop(s, 1);
        DecodesNul(s[1..]);
      } else {
        DecodesNul(s[3..]);
        if NulEscapeAt(s, 0) {
          assert Decode(s).value[0] == 0;
        } else {
          NulEscapedDrop(s, 3);
        }
      }
    }
  }

  /** The string "a%00b" is decoded to three bytes, the second of them NUL. */
  lemma NulInTheMiddle() returns (s: seq<byte>)
    ensures s == [0x61, PERCENT, 0x30, 0x30, 0x62] && NulEscaped(s) && Decode(s) == Some([0x61, 0, 0x62])
  {
    var t: seq<byte> := [];
    DecodeLiteral(0x62, [], t);
    DecodeEscape(0x30, 0x30, [0x62] + [], [0x62] + t);
    DecodeLiteral(0x61, [PERCENT, 0x30, 0x30] + ([0x62] + []), [0] + ([0x62] + t));
    s := [0x61] + ([PERCENT, 0x30, 0x30] + ([0x62] + []));
    assert PairValue(0x30, 0x30) == 0 && [0x61] + ([0] + ([0x62] + t)) == [0x61, 0, 0x62];
    assert NulEscapeAt(s, 1);
  }

  lemma DecodeLiteral(c: byte, rest: seq<byte>, t: seq<byte>)
    requires c != PERCENT && Decode(rest) == Some(t)
    ensures Decode([c] + rest) == Some([c] + t)
  {
    assert ([c] + rest)[1..] == rest;
  }

  lemma DecodeEscape(hi: byte, lo: byte, rest: seq<byte>, t: seq<byte>)
    requires IsHex(hi) && IsHex(lo) && Decode(rest) == Some(t)
    ensures Decode([PERCENT, hi, lo] + rest) == Some([PairValue(hi, lo)] + t)
  {
    assert ([PERCENT, hi, lo] + rest)[3..] == rest;
  }

  // ---------- The decoder ----------

  /** A C string in `a`: its length, before the first NUL. */
  ghost predicate CString(s: seq<byte>, n: nat) {
    n < |s| && s[n] == 0 && forall i :: 0 <= i < n ==> s[i] != 0
  }

  function OrBit5(c: byte): byte {
    if (c as int / 32) % 2 == 0 then (c as int + 32) as byte else c
  }

  /** `char_code |= 0x20` folds the case of a letter and maps nothing else onto a-f. */
  lemma OrBit5FoldsCase(c: byte)
    ensures 0x61 <= OrBit5(c) <= 0x66 <==> 0x41 <= c <= 0x46 || 0x61 <= c <= 0x66
    ensures 0x61 <= OrBit5(c) <= 0x66 && !(0x30 <= c <= 0x39) ==> HexValue(c) == Some(OrBit5(c) as int - 0x57)
  {
  }

  /**
   Reads up to two bytes from `p`, the second only when the first is a digit, so a string that
   ends at `p` or `p + 1` is not read past its terminator.
   */
  method HexCharPairToByte(uri: array<byte>, p: nat, ghost n: nat, dest: array<byte>, d: nat) returns (ok: bool)
    requires CString(uri[..], n) && p <= n
    requires d < dest.Length && dest != uri
    modifies dest
    ensures ok <==> p + 1 < n && IsHex(uri[p]) && IsHex(uri[p + 1])
    ensures ok ==> dest[..] == old(dest[..])[d := PairValue(uri[p], uri[p + 1])]
    ensures !ok ==> dest[..] == old(dest[..])
  {
    var value: int := 0;
    var i := 0;
    while i < 2
      invariant 0 <= i <= 2 && p + i <= n && dest[..] == old(dest[..])
      invariant i >= 1 ==> IsHex(uri[p])
      invariant i >= 2 ==> IsHex(uri[p + 1])
      invariant value == if i == 0 then 0 else if i == 1 then HexValue(uri[p]).value
                         else PairValue(uri[p], uri[p + 1]) as int
    {
      var charCode := uri[p + i];
      if 0x30 <= charCode <= 0x39 {
        value := value * 16 + charCode as int - 0x30;
      } else {
        OrBit5FoldsCase(charCode);
        charCode := OrBit5(charCode);
        if 0x61 <= charCode <= 0x66 {
          value := value * 16 + charCode as int - 0x57;
        } else {
          return false;
        }
      }
      i := i + 1;
    }
    dest[d] := value as byte;
    return true;
  }

  /** What is left to decode, prefixed by what is decoded. */
  function Resume(done: seq<byte>, rest: seq<byte>): Option<seq<byte>> {
    match Decode(rest) case None => None case Some(t) => Some(done + t)
  }

  lemma ResumeLiteral(done: seq<byte>, rest: seq<byte>)
    requires rest != [] && rest[0] != PERCENT
    ensures Resume(done, rest) == Resume(done + [rest[0]], rest[1..])
  {
    if Decode(rest[1..]).Some? {
      var t := Decode(rest[1..]).value;
      assert done + ([rest[0]] + t) == (done + [rest[0]]) + t;
    }
  }

  lemma ResumeEscape(done: seq<byte>, rest: seq<byte>)
    requires EscapeAt(rest, 0)
    ensures Resume(done, rest) == Resume(done + [PairValue(rest[1], rest[2])], rest[3..])
  {
    if Decode(rest[3..]).Some? {
      var t := Decode(rest[3..]).value;
      var b := PairValue(rest[1], rest[2]);
      assert done + ([b] + t) == (done + [b]) + t;
    }
  }

  lemma {:induction false} ResumePrefix(s: seq<byte>, k: nat)
    requires k <= |s| && forall i :: 0 <= i < k ==> s[i] != PERCENT
    ensures Decode(s) == Resume(s[..k], s[k..])
  {
    if k == 0 {
      assert s[0..] == s && s[..0] == [];
      if Decode(s).Some? { assert [] + Decode(s).value == Decode(s).value; }
    } else {
      ResumePrefix(s, k - 1);
      ResumeLiteral(s[..k - 1], s[k - 1..]);
      assert s[..k - 1] + [s[k - 1]] == s[..k];
      assert s[k - 1..][1..] == s[k..];
    }
  }

  lemma ResumeFails(done: seq<byte>, rest: seq<byte>)
    requires rest != [] && rest[0] == PERCENT && !EscapeAt(rest, 0)
    ensures Resume(done, rest).None?
  {
  }

  lemma ResumeEnd(done: seq<byte>)
    ensures Resume(done, []) == Some(done)
  {
    assert done + [] == done;
  }

  class UriDecoder {
    const uri: array<byte>
    /** The decoded bytes and their terminator, the given array itself, or null. */
    var decoded: array?<byte>

    /**
     `n` is the length of the C string in `uri`. The bytes before the terminator that the
     decoder writes are the decoded text; with nothing to decode the original is kept.
     */
    constructor (uri: array<byte>, ghost n: nat)
      requires CString(uri[..], n)
      ensures this.uri == uri
      ensures decoded == null <==> Decode(uri[..n]).None?
      ensures decoded != null ==> Holds(decoded, Decode(uri[..n]).value)
      ensures decoded == uri <==> PERCENT !in uri[..n]
      ensures decoded != null ==> (CString(decoded[..], |Decode(uri[..n]).value|) <==> !NulEscaped(uri[..n]))
      ensures decoded != null && decoded != uri ==> fresh(decoded) && decoded.Length == n + 1
    {
      hide Decode;
      this.uri := uri;
      decoded := null;
      new;
      ghost var s := uri[..n];
      var ch := 0;
      while uri[ch] != 0 && uri[ch] != PERCENT
        invariant 0 <= ch <= n && decoded == null
        invariant PERCENT !in uri[..ch]
        decreases n - ch
      {
        ch := ch + 1;
      }
      assert uri[..ch] == s[..ch];
      ResumePrefix(s, ch);
      assert uri[ch..n] == s[ch..];
      if uri[ch] == 0 {
        assert s[ch..] == [] && s[..ch] == s;
        ResumeEnd(s);
        decoded := uri;
        TextReadWhole(decoded, s);
        return;
      }
      assert uri[ch] in s;
      decoded := DecodeFrom(uri, n, ch);
      if decoded != null {
        TextReadWhole(decoded, s);
      }
    }
  }

  ghost predicate Holds(a: array<byte>, t: seq<byte>)
    reads a
  {
    |t| < a.Length && a[..|t|] == t && a[|t|] == 0
  }

  /** A C caller reads the whole text exactly when the URI has no escape for NUL. */
  lemma TextReadWhole(a: array<byte>, s: seq<byte>)
    requires Decode(s).Some? && Holds(a, Decode(s).value) && forall i :: 0 <= i < |s| ==> s[i] != 0
    ensures CString(a[..], |Decode(s).value|) <==> !NulEscaped(s)
  {
    hide Decode;
    DecodesNul(s);
    assert a[..][..|Decode(s).value|] == Decode(s).value;
  }

  /**
   One literal or one escape; `next` is 0 if the escape is bad. The length check looks at the first '%',
   at `first`, only; the digits are checked at the current one.
   */
  method DecodeNext(uri: array<byte>, ghost s: seq<byte>, len: nat, first: nat, ch: nat, buffer: array<byte>, dest: nat)
    returns (next: nat)
    requires CString(uri[..], |s|) && uri[..|s|] == s && len == |s| && first <= ch < |s|
    requires dest < buffer.Length && buffer != uri
    modifies buffer
    ensures next == 0 ==> Resume(old(buffer[..dest]), s[ch..]).None?
    ensures next != 0 ==> ch < next <= |s| && Resume(old(buffer[..dest]), s[ch..]) == Resume(buffer[..dest + 1], s[next..])
  {
    hide Decode, Resume, HexValue, PairValue;
    ghost var done, rest := buffer[..dest], s[ch..];
    if uri[ch] != PERCENT {
      ResumeLiteral(done, rest);
      buffer[dest] := uri[ch];
      assert buffer[..dest + 1] == done + [rest[0]] && rest[1..] == s[ch + 1..];
      return ch + 1;
    }
    if first + 3 > len {
      ResumeFails(done, rest);
      return 0;
    }
    var ok := HexCharPairToByte(uri, ch + 1, |s|, buffer, dest);
    if !ok {
      ResumeFails(done, rest);
      return 0;
    }
    ResumeEscape(done, rest);
    assert buffer[..dest + 1] == done + [PairValue(rest[1], rest[2])] && rest[3..] == s[ch + 3..];
    return ch + 3;
  }

  /** The loop over the rest of the URI, from the first '%' on; the text before it is in the buffer. */
  method DecodeRest(uri: array<byte>, ghost s: seq<byte>, len: nat, i: nat, buffer: array<byte>)
    returns (ok: bool, dest: nat)
    requires CString(uri[..], |s|) && uri[..|s|] == s && len == |s| && i < |s|
    requires buffer.Length == |s| + 1 && buffer != uri && Decode(s) == Resume(buffer[..i], s[i..])
    modifies buffer
    ensures ok == Decode(s).Some?
    ensures ok ==> dest <= |s| && buffer[..dest] == Decode(s).value
  {
    hide Decode, Resume;
    var ch := i;
    dest := i;
    while uri[ch] != 0
      invariant i <= dest <= ch <= |s| && Decode(s) == Resume(buffer[..dest], s[ch..])
      decreases |s| - ch
    {
      var next := DecodeNext(uri, s, len, i, ch, buffer, dest);
      if next == 0 {
        return false, dest;
      }
      ch, dest := next, dest + 1;
    }
    assert s[ch..] == [];
    ResumeEnd(buffer[..dest]);
    ok := true;
  }

  /** The second half of the constructor: decoding into a new buffer. */
  method DecodeFrom(uri: array<byte>, ghost n: nat, i: nat) returns (decoded: array?<byte>)
    requires CString(uri[..], n) && i < n && uri[i] == PERCENT
    requires Decode(uri[..n]) == Resume(uri[..i], uri[i..n])
    ensures decoded == null <==> Decode(uri[..n]).None?
    ensures decoded != null ==>
              && fresh(decoded) && decoded.Length == n + 1
              && Holds(decoded, Decode(uri[..n]).value)
  {
    hide Decode, Resume;
    ghost var s := uri[..n];
    assert uri[..i] == s[..i] && uri[i..n] == s[i..];
    var len := StringLength(uri, n);
    var buffer := new byte[len + 1];
    forall k | 0 <= k < i { buffer[k] := uri[k]; }
    assert buffer[..i] == s[..i] && uri[..n] == s;
    var ok, dest := DecodeRest(uri, s, len, i, buffer);
    assert uri[..n] == s;
    if !ok {
      return null;
    }
    ghost var t := buffer[..dest];
    buffer[dest] := 0;
    assert buffer[..dest] == t && uri[..n] == s;
    return buffer;
  }

  /** `strlen`. */
  method StringLength(a: array<byte>, ghost n: nat) returns (len: nat)
    requires CString(a[..], n)
    ensures len == n
  {
    len := 0;
    while a[len] != 0
      invariant len <= n
      decreases n - len
    {
      len := len + 1;
    }
  }
}
