/**
 The text of a unique id: sixteen hash bytes printed one after the other, each print writing two
 digits and a terminator that the next print overwrites.
 */
module UniqueId {
  import opened CText
  import opened Hex

  type Byte = b: nat | b < 256

  const HASH_SIZE := 16
  const ID_SIZE := 33

  function HexByte(b: Byte): string {
    [HexDigit(b / 16), HexDigit(b % 16)]
  }

  function HexText(bytes: seq<Byte>): (s: string)
    ensures |s| == 2 * |bytes|
  {
    if bytes == [] then [] else HexText(bytes[..|bytes| - 1]) + HexByte(bytes[|bytes| - 1])
  }

  predicate IsHexText(s: string) {
    |s| % 2 == 0 && forall i | 0 <= i < |s| :: IsHexDigit(s[i]) && !('A' <= s[i] <= 'F')
  }

  function HexBytes(s: string): seq<Byte>
    requires IsHexText(s)
  {
    if s == [] then []
    else
      var n := |s| - 2;
      HexBytes(s[..n]) + [16 * HexValue(s[n]) + HexValue(s[n + 1])]
  }

  lemma HexStep(s: string, b: Byte)
    requires IsHexText(s)
    ensures IsHexText(s + HexByte(b)) && HexBytes(s + HexByte(b)) == HexBytes(s) + [b]
  {
    var t := s + HexByte(b);
    assert t[..|t| - 2] == s;
    assert t[|s|] == HexDigit(b / 16) && t[|s| + 1] == HexDigit(b % 16);
  }

  /** Lower-case digits only, and they decode back to the bytes. */
  lemma {:induction false} HexReadsBack(bytes: seq<Byte>)
    ensures IsHexText(HexText(bytes)) && HexBytes(HexText(bytes)) == bytes
  {
    if bytes != [] {
      var n := |bytes| - 1;
      HexReadsBack(bytes[..n]);
      HexStep(HexText(bytes[..n]), bytes[n]);
      assert bytes == bytes[..n] + [bytes[n]];
    }
  }

  /** Different hashes have different ids. */
  lemma HexInjective(a: seq<Byte>, b: seq<Byte>)
    ensures HexText(a) == HexText(b) <==> a == b
  {
    HexReadsBack(a);
    HexReadsBack(b);
  }

  /** `sprintf(&buf[at], "%02x", b)`: three bytes. */
  method PrintHexByte(buf: array<char>, at: nat, b: Byte)
    requires at + 3 <= buf.Length
    modifies buf
    ensures buf[..] == old(buf[..at]) + HexByte(b) + [NUL] + old(buf[at + 3..])
  {
    buf[at] := HexDigit(b / 16);
    buf[at + 1] := HexDigit(b % 16);
    buf[at + 2] := NUL;
  }

  method Zero(buf: array<char>, len: nat)
    requires len <= buf.Length
    modifies buf
    ensures buf[..] == seq(len, i => NUL) + old(buf[len..])
  {
    forall i | 0 <= i < len {
      buf[i] := NUL;
    }
  }

  /** The id fills its 33 bytes exactly, terminator included, and nothing behind them is written. */
  method WriteUniqueId(hash: array<Byte>, buf: array<char>)
    requires hash.Length == HASH_SIZE && buf.Length >= ID_SIZE
    modifies buf
    ensures buf[..] == HexText(hash[..]) + [NUL] + old(buf[ID_SIZE..])
    ensures CStr(buf[..]) == HexText(hash[..])
  {
    ghost var behind := buf[ID_SIZE..];
    Zero(buf, ID_SIZE);
    for i := 0 to HASH_SIZE
      invariant buf[..] == HexText(hash[..i]) + seq(ID_SIZE - 2 * i, _ => NUL) + behind
    {
      ghost var before := buf[..];
      PrintHexByte(buf, 2 * i, hash[i]);
      assert hash[..i + 1][..i] == hash[..i];
      PrintStep(before, HexText(hash[..i]), 2 * i, HexByte(hash[i]), behind);
    }
    assert hash[..HASH_SIZE] == hash[..];
    HexReadsBack(hash[..]);
    HexHasNoNul(HexText(hash[..]));
    TextInFront(HexText(hash[..]), buf[..], behind);
  }

  lemma HexHasNoNul(s: string)
    requires IsHexText(s)
    ensures NUL !in s
  {
  }

  lemma TextInFront(text: string, b: seq<char>, behind: seq<char>)
    requires NUL !in text && b == text + seq(1, _ => NUL) + behind
    ensures b == text + [NUL] + behind && CStr(b) == text
  {
    CStrOfText(text, b);
  }

  /** A print that starts where the text so far ends makes it longer and keeps the rest zero. */
  lemma PrintStep(before: seq<char>, text: string, n: nat, digits: string, behind: seq<char>)
    requires |text| == n && n + 3 <= ID_SIZE && |digits| == 2
    requires before == text + seq(ID_SIZE - n, _ => NUL) + behind
    ensures before[..n] + digits + [NUL] + before[n + 3..] == text + digits + seq(ID_SIZE - n - 2, _ => NUL) + behind
  {
    assert before[..n] == text;
  }
}
