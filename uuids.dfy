/** The text form of a UUID as Python's `str(uuid)` writes it (8-4-4-4-12 lower-case
    hex digits) and the parser behind `uuid.UUID(text)`, restricted to hyphenated or
    plain runs of hex digits. */
module Uuids {
  import opened Base

  predicate IsHexChar(c: char)
  {
    '0' <= c <= '9' || 'a' <= c <= 'f' || 'A' <= c <= 'F'
  }

  predicate AllHex(s: string)
  {
    forall i :: 0 <= i < |s| ==> IsHexChar(s[i])
  }

  /** The lower-case digit of a value below 16. */
  function HexChar(d: nat): (c: char)
    requires d < 16
    ensures IsHexChar(c) && c != '-'
  {
    if d < 10 then ('0' as int + d) as char else ('a' as int + d - 10) as char
  }

  /** The value of one hex digit, either case. */
  function HexVal(c: char): (v: nat)
    requires IsHexChar(c)
    ensures v < 16
  {
    if '0' <= c <= '9' then c as int - '0' as int
    else if 'a' <= c <= 'f' then c as int - 'a' as int + 10
    else c as int - 'A' as int + 10
  }

  function Pow16(k: nat): (r: nat)
    ensures r > 0
  {
    if k == 0 then 1 else 16 * Pow16(k - 1)
  }

  /** The `k` lowest hex digits of `n`, most significant first. */
  function HexDigits(n: nat, k: nat): (r: string)
    ensures |r| == k && AllHex(r)
    ensures forall i :: 0 <= i < |r| ==> r[i] != '-'
  {
    if k == 0 then [] else HexDigits(n / 16, k - 1) + [HexChar(n % 16)]
  }

  /** The number a run of hex digits denotes (`int(text, 16)`). */
  function HexValue(s: string): (v: nat)
    requires AllHex(s)
    ensures v < Pow16(|s|)
  {
    if s == [] then 0 else HexValue(s[..|s| - 1]) * 16 + HexVal(s[|s| - 1])
  }

  /** `str(uuid)`. */
  function UuidToString(u: Uuid): (r: string)
    ensures |r| == 36
    ensures r[8] == '-' && r[13] == '-' && r[18] == '-' && r[23] == '-'
  {
    var h := HexDigits(u, 32);
    h[..8] + "-" + h[8..12] + "-" + h[12..16] + "-" + h[16..20] + "-" + h[20..]
  }

  function RemoveHyphens(s: string): (r: string)
    ensures forall i :: 0 <= i < |r| ==> r[i] != '-'
  {
    if s == [] then [] else (if s[0] == '-' then [] else [s[0]]) + RemoveHyphens(s[1..])
  }

  /** `uuid.UUID(text)`: hyphens are dropped and exactly 32 hex digits must remain. */
  function ParseUuid(s: string): (r: Option<Uuid>)
    ensures r.Some? <==> |RemoveHyphens(s)| == 32 && AllHex(RemoveHyphens(s))
  {
    var h := RemoveHyphens(s);
    if |h| == 32 && AllHex(h) then
      Pow16Is128Bits();
      Some(HexValue(h))
    else None
  }

  lemma Pow16Is128Bits()
    ensures Pow16(32) == UuidBound
  {
    assert Pow16(1) == 0x10;
    assert Pow16(2) == 0x100;
    assert Pow16(3) == 0x1000;
    assert Pow16(4) == 0x1_0000;
    Pow16Add(4, 4);
    assert Pow16(8) == 0x1_0000_0000;
    Pow16Add(8, 8);
    assert Pow16(16) == 0x1_0000_0000_0000_0000;
    Pow16Add(16, 16);
  }

  lemma {:induction false} Pow16Add(a: nat, b: nat)
    ensures Pow16(a + b) == Pow16(a) * Pow16(b)
  {
    if a > 0 {
      Pow16Add(a - 1, b);
      assert Pow16(a + b) == 16 * Pow16(a - 1 + b);
    }
  }

  lemma MulAtLeast(d: nat, k: nat)
    requires k >= 1
    ensures d * k >= d
  {
    assert d * k == d * (k - 1) + d;
  }

  /** Euclidean division has one quotient and one remainder. */
  lemma ModUnique(n: nat, d: nat, q: nat, x: nat)
    requires d > 0 && n == d * q + x && x < d
    ensures n % d == x
  {
    var q', r' := n / d, n % d;
    assert n == d * q' + r';
    if q' < q {
      var k := q - q';
      assert d * q == d * q' + d * k;
      MulAtLeast(d, k);
    } else if q' > q {
      var k := q' - q;
      assert d * q' == d * q + d * k;
      MulAtLeast(d, k);
    }
  }

  lemma ModStep(n: nat, p: nat)
    requires p > 0
    ensures (n / 16 % p) * 16 + n % 16 == n % (16 * p)
  {
    var q, r := n / 16, n % 16;
    var a, b := q / p, q % p;
    assert q == p * a + b;
    assert n == 16 * q + r;
    assert n == (16 * p) * a + (16 * b + r);
    ModUnique(n, 16 * p, a, 16 * b + r);
  }

  lemma HexValChar(d: nat)
    requires d < 16
    ensures HexVal(HexChar(d)) == d
  {
  }

  lemma {:induction false} HexValueOfDigits(n: nat, k: nat)
    ensures HexValue(HexDigits(n, k)) == n % Pow16(k)
  {
    if k > 0 {
      var h := HexDigits(n / 16, k - 1);
      var s := HexDigits(n, k);
      assert s == h + [HexChar(n % 16)];
      assert s[..|s| - 1] == h;
      HexValueOfDigits(n / 16, k - 1);
      HexValChar(n % 16);
      ModStep(n, Pow16(k - 1));
    }
  }

  lemma {:induction false} RemoveHyphensAppend(a: string, b: string)
    ensures RemoveHyphens(a + b) == RemoveHyphens(a) + RemoveHyphens(b)
  {
    if a == [] {
      assert a + b == b;
    } else {
      var head := if a[0] == '-' then [] else [a[0]];
      assert (a + b)[0] == a[0];
      assert (a + b)[1..] == a[1..] + b;
      RemoveHyphensAppend(a[1..], b);
      calc {
        RemoveHyphens(a + b);
        head + RemoveHyphens(a[1..] + b);
        head + (RemoveHyphens(a[1..]) + RemoveHyphens(b));
        (head + RemoveHyphens(a[1..])) + RemoveHyphens(b);
        RemoveHyphens(a) + RemoveHyphens(b);
      }
    }
  }

  lemma {:induction false} RemoveHyphensNone(s: string)
    requires forall i :: 0 <= i < |s| ==> s[i] != '-'
    ensures RemoveHyphens(s) == s
  {
    if s != [] {
      RemoveHyphensNone(s[1..]);
    }
  }

  lemma DashJoin(x: string, y: string)
    ensures RemoveHyphens(x + "-" + y) == RemoveHyphens(x) + RemoveHyphens(y)
  {
    RemoveHyphensAppend(x + "-", y);
    RemoveHyphensAppend(x, "-");
  }

  /** Dropping the four hyphens of the 8-4-4-4-12 layout gives the digits back. */
  lemma RemoveHyphensOfDashed(h: string)
    requires |h| == 32 && forall i :: 0 <= i < |h| ==> h[i] != '-'
    ensures RemoveHyphens(h[..8] + "-" + h[8..12] + "-" + h[12..16] + "-" + h[16..20] + "-" + h[20..]) == h
  {
    var a, b, c, d, e := h[..8], h[8..12], h[12..16], h[16..20], h[20..];
    RemoveHyphensNone(a);
    RemoveHyphensNone(b);
    RemoveHyphensNone(c);
    RemoveHyphensNone(d);
    RemoveHyphensNone(e);
    var s1 := a + "-" + b;
    DashJoin(a, b);
    assert RemoveHyphens(s1) == h[..12];
    var s2 := s1 + "-" + c;
    DashJoin(s1, c);
    assert RemoveHyphens(s2) == h[..16];
    var s3 := s2 + "-" + d;
    DashJoin(s2, d);
    assert RemoveHyphens(s3) == h[..20];
    DashJoin(s3, e);
    assert h[..20] + e == h;
  }

  lemma RemoveHyphensOfText(u: Uuid)
    ensures RemoveHyphens(UuidToString(u)) == HexDigits(u, 32)
  {
    RemoveHyphensOfDashed(HexDigits(u, 32));
  }

  /** Parsing the canonical text gives the identifier back. */
  lemma ParseUuidToString(u: Uuid)
    ensures ParseUuid(UuidToString(u)) == Some(u)
  {
    var h := HexDigits(u, 32);
    RemoveHyphensOfText(u);
    HexValueOfDigits(u, 32);
    Pow16Is128Bits();
    ModUnique(u, Pow16(32), 0, u);
    assert HexValue(h) == u;
  }

  /** Distinct identifiers have distinct texts. */
  lemma UuidToStringInjective(u: Uuid, v: Uuid)
    requires UuidToString(u) == UuidToString(v)
    ensures u == v
  {
    ParseUuidToString(u);
    ParseUuidToString(v);
  }
}
