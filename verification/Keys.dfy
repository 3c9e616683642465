/** The cache key strings and why they never collide. */
module Keys {
  import opened Core

  // ----- decimal printing, as %d does it -----

  function Digit(d: int): (c: char)
    requires 0 <= d < 10
    ensures '0' <= c <= '9'
  {
    '0' + d as char
  }

  function PrintNat(n: nat): (s: string)
    ensures |s| > 0 && forall i :: 0 <= i < |s| ==> '0' <= s[i] <= '9'
  {
    if n < 10 then [Digit(n)] else PrintNat(n / 10) + [Digit(n % 10)]
  }

  function PrintInt(n: int): (s: string)
    ensures |s| > 0 && ':' !in s
  {
    if n < 0 then "-" + PrintNat(-n) else PrintNat(n)
  }

  /** Reading the digits back; the inverse that makes printing injective. */
  function ReadNat(s: string): int {
    if s == "" then 0 else ReadNat(s[..|s| - 1]) * 10 + (s[|s| - 1] as int - '0' as int)
  }

  function ReadInt(s: string): int {
    if s != "" && s[0] == '-' then -ReadNat(s[1..]) else ReadNat(s)
  }

  lemma {:induction false} ReadPrintNat(n: nat)
    ensures ReadNat(PrintNat(n)) == n
  {
    if n < 10 {
      assert PrintNat(n)[..0] == "";
    } else {
      ReadPrintNat(n / 10);
      assert PrintNat(n)[..|PrintNat(n)| - 1] == PrintNat(n / 10);
    }
  }

  lemma ReadPrintInt(n: int)
    ensures ReadInt(PrintInt(n)) == n
  {
    if n < 0 {
      ReadPrintNat(-n);
      assert PrintInt(n)[1..] == PrintNat(-n);
    } else {
      ReadPrintNat(n);
    }
  }

  // ----- UUID printing: 8-4-4-4-12 hex digits -----

  function HexDigit(d: int): (c: char)
    requires 0 <= d < 16
  {
    if d < 10 then '0' + d as char else 'a' + (d - 10) as char
  }

  function HexByte(b: byte): (s: string)
    ensures |s| == 2
  {
    [HexDigit(b as int / 16), HexDigit(b as int % 16)]
  }

  function HexBytes(bs: seq<byte>): (s: string)
    ensures |s| == 2 * |bs|
  {
    if bs == [] then "" else HexByte(bs[0]) + HexBytes(bs[1..])
  }

  lemma HexByteInjective(a: byte, b: byte)
    requires HexByte(a) == HexByte(b)
    ensures a == b
  {
  }

  lemma {:induction false} HexBytesInjective(a: seq<byte>, b: seq<byte>)
    requires |a| == |b| && HexBytes(a) == HexBytes(b)
    ensures a == b
  {
    if a != [] {
      assert HexBytes(a)[..2] == HexByte(a[0]) && HexBytes(b)[..2] == HexByte(b[0]);
      HexByteInjective(a[0], b[0]);
      assert HexBytes(a)[2..] == HexBytes(a[1..]) && HexBytes(b)[2..] == HexBytes(b[1..]);
      HexBytesInjective(a[1..], b[1..]);
      assert a == [a[0]] + a[1..] && b == [b[0]] + b[1..];
    }
  }

  function PrintUuid(id: Uuid): (s: string)
    ensures |s| == 36
  {
    var b := id.bytes;
    HexBytes(b[..4]) + "-" + HexBytes(b[4..6]) + "-" + HexBytes(b[6..8]) + "-" +
    HexBytes(b[8..10]) + "-" + HexBytes(b[10..])
  }

  lemma PrintUuidInjective(x: Uuid, y: Uuid)
    requires PrintUuid(x) == PrintUuid(y)
    ensures x == y
  {
    var a, b := x.bytes, y.bytes;
    var s, t := PrintUuid(x), PrintUuid(y);
    assert s[..8] == HexBytes(a[..4]) && t[..8] == HexBytes(b[..4]);
    assert s[9..13] == HexBytes(a[4..6]) && t[9..13] == HexBytes(b[4..6]);
    assert s[14..18] == HexBytes(a[6..8]) && t[14..18] == HexBytes(b[6..8]);
    assert s[19..23] == HexBytes(a[8..10]) && t[19..23] == HexBytes(b[8..10]);
    assert s[24..] == HexBytes(a[10..]) && t[24..] == HexBytes(b[10..]);
    HexBytesInjective(a[..4], b[..4]);
    HexBytesInjective(a[4..6], b[4..6]);
    HexBytesInjective(a[6..8], b[6..8]);
    HexBytesInjective(a[8..10], b[8..10]);
    HexBytesInjective(a[10..], b[10..]);
    assert a == a[..4] + a[4..6] + a[6..8] + a[8..10] + a[10..];
    assert b == b[..4] + b[4..6] + b[6..8] + b[8..10] + b[10..];
  }

  // ----- the keys -----

  const USER_PREFIX: string := "user:get:"
  const LIST_PREFIX: string := "user:list:v"

  function UserKey(id: Uuid): string {
    USER_PREFIX + PrintUuid(id)
  }

  function ListKey(ver: nat, page: int, size: int): string {
    LIST_PREFIX + PrintNat(ver) + ":" + PrintInt(page) + ":" + PrintInt(size)
  }

  function BeforeColon(s: string): string {
    if s == "" || s[0] == ':' then "" else [s[0]] + BeforeColon(s[1..])
  }

  lemma {:induction false} BeforeColonOf(a: string, x: string)
    requires ':' !in a
    ensures BeforeColon(a + ":" + x) == a
  {
    if a == "" {
      assert (a + ":" + x)[0] == ':';
    } else {
      assert (a + ":" + x)[1..] == a[1..] + ":" + x;
      BeforeColonOf(a[1..], x);
    }
  }

  /** Text before the first ':' is recovered from the whole. */
  lemma SplitAtColon(a: string, x: string, b: string, y: string)
    requires ':' !in a && ':' !in b && a + ":" + x == b + ":" + y
    ensures a == b && x == y
  {
    BeforeColonOf(a, x);
    BeforeColonOf(b, y);
    assert (a + ":" + x)[|a| + 1..] == x;
    assert (b + ":" + y)[|b| + 1..] == y;
  }

  /** A list key after its prefix. */
  function ListKeyTail(ver: nat, page: int, size: int): string {
    PrintNat(ver) + ":" + (PrintInt(page) + ":" + PrintInt(size))
  }

  lemma ListKeyTailOf(ver: nat, page: int, size: int)
    ensures ListKey(ver, page, size)[|LIST_PREFIX|..] == ListKeyTail(ver, page, size)
  {
  }

  lemma UserKeyInjective(x: Uuid, y: Uuid)
    ensures UserKey(x) == UserKey(y) <==> x == y
  {
    if UserKey(x) == UserKey(y) {
      assert UserKey(x)[|USER_PREFIX|..] == PrintUuid(x);
      assert UserKey(y)[|USER_PREFIX|..] == PrintUuid(y);
      PrintUuidInjective(x, y);
    }
  }

  /** Two list keys are equal only when all three numbers are: signs and widths included. */
  lemma ListKeyInjective(v: nat, p: int, s: int, v': nat, p': int, s': int)
    ensures ListKey(v, p, s) == ListKey(v', p', s') <==> v == v' && p == p' && s == s'
  {
    if ListKey(v, p, s) == ListKey(v', p', s') {
      ListKeyTailOf(v, p, s);
      ListKeyTailOf(v', p', s');
      SplitAtColon(PrintNat(v), PrintInt(p) + ":" + PrintInt(s), PrintNat(v'), PrintInt(p') + ":" + PrintInt(s'));
      SplitAtColon(PrintInt(p), PrintInt(s), PrintInt(p'), PrintInt(s'));
      ReadPrintNat(v);
      ReadPrintNat(v');
      ReadPrintInt(p);
      ReadPrintInt(p');
      ReadPrintInt(s);
      ReadPrintInt(s');
    }
  }

  lemma KeysDisjoint(id: Uuid, v: nat, p: int, s: int)
    ensures UserKey(id) != ListKey(v, p, s)
  {
    assert UserKey(id)[5] == 'g' && ListKey(v, p, s)[5] == 'l';
  }
}
