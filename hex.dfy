/**
 * Hexadecimal formatting of MD5 digests, as both programs write it:
 * `BitConverter.ToString(hashByte).Replace("-", "")`.
 * `BitConverter.ToString` prints every byte as two upper-case hexadecimal
 * digits and separates consecutive bytes with '-'; the `Replace` then drops
 * the separators.  The MD5 function itself is not modelled: it appears as a
 * parameter of type `HashFn` wherever a digest is taken.
 */
module Hex {
  import opened Wrappers

  type Byte = b: int | 0 <= b < 256

  /** An MD5 digest: exactly sixteen bytes. */
  type Digest = d: seq<Byte> | |d| == 16 witness seq(16, i => 0)

  /** MD5 over file contents, supplied by the environment. */
  type HashFn = seq<Byte> -> Digest

  const Digits: string := "0123456789ABCDEF"

  /** The two digits `BitConverter` prints for one byte. */
  function ByteHex(b: Byte): string
  {
    [Digits[b / 16], Digits[b % 16]]
  }

  /** `BitConverter.ToString(bytes)`: "0A-FF-..." */
  function Dashed(bytes: seq<Byte>): string
  {
    if |bytes| == 0 then ""
    else if |bytes| == 1 then ByteHex(bytes[0])
    else ByteHex(bytes[0]) + "-" + Dashed(bytes[1..])
  }

  /** `s.Replace(c.ToString(), "")`: every occurrence of `c` deleted. */
  function Without(s: string, c: char): string
  {
    if s == [] then [] else (if s[0] == c then [] else [s[0]]) + Without(s[1..], c)
  }

  /** Reference definition: the digits of every byte, concatenated. */
  function Plain(bytes: seq<Byte>): string
  {
    if bytes == [] then "" else ByteHex(bytes[0]) + Plain(bytes[1..])
  }

  lemma {:induction false} WithoutConcat(s: string, t: string, c: char)
    ensures Without(s + t, c) == Without(s, c) + Without(t, c)
  {
    if s != [] {
      assert (s + t)[1..] == s[1..] + t;
      WithoutConcat(s[1..], t, c);
    } else {
      assert s + t == t;
    }
  }

  lemma {:induction false} WithoutAbsent(s: string, c: char)
    requires c !in s
    ensures Without(s, c) == s
  {
    if s != [] {
      WithoutAbsent(s[1..], c);
    }
  }

  lemma ByteHexHasNoDash(b: Byte)
    ensures '-' !in ByteHex(b)
  {
    assert forall i :: 0 <= i < 16 ==> Digits[i] != '-';
  }

  /** `FileHashMD5`'s formatting step: the dashes of `BitConverter` removed. */
  function DigestHex(bytes: seq<Byte>): (r: string)
    ensures r == Plain(bytes)
  {
    DashedWithoutIsPlain(bytes);
    Without(Dashed(bytes), '-')
  }

  lemma {:induction false} DashedWithoutIsPlain(bytes: seq<Byte>)
    ensures Without(Dashed(bytes), '-') == Plain(bytes)
  {
    if |bytes| == 1 {
      assert Plain(bytes[1..]) == "";
      ByteHexHasNoDash(bytes[0]);
      WithoutAbsent(ByteHex(bytes[0]), '-');
    } else if |bytes| > 1 {
      var h := ByteHex(bytes[0]);
      WithoutConcat(h + "-", Dashed(bytes[1..]), '-');
      WithoutConcat(h, "-", '-');
      ByteHexHasNoDash(bytes[0]);
      WithoutAbsent(h, '-');
      DashedWithoutIsPlain(bytes[1..]);
    }
  }

  /** Two upper-case hexadecimal digits per byte, in byte order, nothing else. */
  lemma {:induction false} PlainShape(bytes: seq<Byte>)
    ensures |Plain(bytes)| == 2 * |bytes|
    ensures forall i :: 0 <= i < |bytes| ==>
      Plain(bytes)[2 * i] == Digits[bytes[i] / 16] && Plain(bytes)[2 * i + 1] == Digits[bytes[i] % 16]
  {
    if bytes != [] {
      PlainShape(bytes[1..]);
      forall i | 0 < i < |bytes|
        ensures Plain(bytes)[2 * i] == Digits[bytes[i] / 16] && Plain(bytes)[2 * i + 1] == Digits[bytes[i] % 16]
      {
        assert bytes[1..][i - 1] == bytes[i];
      }
    }
  }

  /** Every character of a formatted digest is an upper-case hexadecimal digit. */
  lemma DigestHexDigits(bytes: seq<Byte>)
    ensures |DigestHex(bytes)| == 2 * |bytes|
    ensures forall i :: 0 <= i < |DigestHex(bytes)| ==> DigestHex(bytes)[i] in Digits
  {
    PlainShape(bytes);
    forall i | 0 <= i < |DigestHex(bytes)| ensures DigestHex(bytes)[i] in Digits {
      var j := i / 2;
      assert i == 2 * j || i == 2 * j + 1;
      assert 0 <= j < |bytes|;
      assert DigestHex(bytes)[i] == Digits[bytes[j] / 16] || DigestHex(bytes)[i] == Digits[bytes[j] % 16];
    }
  }

  /** The value of an upper-case hexadecimal digit. */
  function DigitValue(c: char): Option<nat>
  {
    if '0' <= c <= '9' then Some(c as int - '0' as int)
    else if 'A' <= c <= 'F' then Some(c as int - 'A' as int + 10)
    else None
  }

  /** Reads back a digest written by `DigestHex`. */
  function ParseHex(s: string): Option<seq<Byte>>
  {
    if |s| == 0 then Some([])
    else if |s| == 1 then None
    else match (DigitValue(s[0]), DigitValue(s[1]), ParseHex(s[2..]))
      case (Some(hi), Some(lo), Some(rest)) =>
        if hi < 16 && lo < 16 then Some([hi * 16 + lo] + rest) else None
      case _ => None
  }

  lemma DigitValueInverse(n: nat)
    requires n < 16
    ensures DigitValue(Digits[n]) == Some(n)
  {
  }

  lemma ParseTwoDigits(hi: nat, lo: nat, t: string)
    requires hi < 16 && lo < 16
    ensures ParseHex([Digits[hi], Digits[lo]] + t) ==
      if ParseHex(t).Some? then Some([hi * 16 + lo] + ParseHex(t).value) else None
  {
    DigitValueInverse(hi);
    DigitValueInverse(lo);
    var s := [Digits[hi], Digits[lo]] + t;
    assert s[0] == Digits[hi] && s[1] == Digits[lo] && s[2..] == t;
  }

  /** Reading the two digits of a byte gives the byte back, ahead of whatever follows. */
  lemma ParseByteHex(b: Byte, t: string)
    ensures ParseHex(ByteHex(b) + t) == if ParseHex(t).Some? then Some([b] + ParseHex(t).value) else None
  {
    SplitByte(b);
    ParseTwoDigits(b / 16, b % 16, t);
  }

  lemma SplitByte(b: Byte)
    ensures b / 16 < 16 && b % 16 < 16 && (b / 16) * 16 + b % 16 == b
  {
  }

  /** Formatting loses nothing: the bytes can be read back from the string. */
  lemma {:induction false} ParseHexRoundTrip(bytes: seq<Byte>)
    ensures ParseHex(DigestHex(bytes)) == Some(bytes)
  {
    if bytes != [] {
      ParseHexRoundTrip(bytes[1..]);
      assert DigestHex(bytes) == ByteHex(bytes[0]) + DigestHex(bytes[1..]);
      ParseByteHex(bytes[0], DigestHex(bytes[1..]));
      assert [bytes[0]] + bytes[1..] == bytes;
    }
  }

  /** Distinct digests never format to the same string. */
  lemma DigestHexInjective(a: seq<Byte>, b: seq<Byte>)
    requires DigestHex(a) == DigestHex(b)
    ensures a == b
  {
    ParseHexRoundTrip(a);
    ParseHexRoundTrip(b);
  }
}
