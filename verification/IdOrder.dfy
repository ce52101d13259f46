/** The two orders of message ids: SQLite compares the bytes of UTF-8, JavaScript the units of UTF-16. */
module IdOrder {

  datatype Encoding = Utf8 | Utf16

  // ---- Lexicographic order of sequences

  predicate SeqBefore(a: seq<int>, b: seq<int>) {
    if a == [] then b != []
    else if b == [] then false
    else if a[0] != b[0] then a[0] < b[0]
    else SeqBefore(a[1..], b[1..])
  }

  lemma {:induction false} SeqOrder(a: seq<int>, b: seq<int>, c: seq<int>)
    ensures !SeqBefore(a, a) && (SeqBefore(a, b) || a == b || SeqBefore(b, a)) && !(SeqBefore(a, b) && SeqBefore(b, a))
    ensures SeqBefore(a, b) && SeqBefore(b, c) ==> SeqBefore(a, c)
    decreases |a|
  {
    if a != [] {
      var b', c' := if b != [] then b[1..] else [], if c != [] then c[1..] else [];
      SeqOrder(a[1..], b', c');
      if b != [] && a[0] == b[0] && a[1..] == b[1..] { assert a == [a[0]] + a[1..] == [b[0]] + b[1..] == b; }
    }
  }

  lemma {:induction false} SamePrefix(p: seq<int>, x: seq<int>, y: seq<int>)
    ensures SeqBefore(p + x, p + y) <==> SeqBefore(x, y)
  {
    if p == [] {
      assert p + x == x && p + y == y;
    } else {
      assert (p + x)[1..] == p[1..] + x && (p + y)[1..] == p[1..] + y;
      SamePrefix(p[1..], x, y);
    }
  }

  lemma FirstDifference(p: seq<int>, q: seq<int>, k: nat)
    requires k < |p| && k < |q| && p[..k] == q[..k] && p[k] < q[k]
    ensures SeqBefore(p, q)
  {
    SamePrefix(p[..k], p[k..], q[k..]);
    assert p == p[..k] + p[k..] && q == q[..k] + q[k..];
  }

  // ---- Encodings

  function Utf8Bytes(c: int): (r: seq<int>)
    ensures r != []
  {
    if c < 0x80 then [c]
    else if c < 0x800 then [0xC0 + c / 64, 0x80 + c % 64]
    else if c < 0x1_0000 then [0xE0 + c / 64 / 64, 0x80 + c / 64 % 64, 0x80 + c % 64]
    else [0xF0 + c / 64 / 64 / 64, 0x80 + c / 64 / 64 % 64, 0x80 + c / 64 % 64, 0x80 + c % 64]
  }

  function Utf16Units(c: int): (r: seq<int>)
    ensures r != []
  {
    if c < 0x1_0000 then [c] else [0xD800 + (c - 0x1_0000) / 0x400, 0xDC00 + (c - 0x1_0000) % 0x400]
  }

  function Units(e: Encoding, c: char): (r: seq<int>)
    ensures r != []
  {
    if e.Utf8? then Utf8Bytes(c as int) else Utf16Units(c as int)
  }

  function Encoded(e: Encoding, s: string): seq<int> {
    if s == [] then [] else Units(e, s[0]) + Encoded(e, s[1..])
  }

  /** SQLite's BINARY collation for Utf8, JavaScript's `<` for Utf16. */
  predicate IdBefore(e: Encoding, a: string, b: string) { SeqBefore(Encoded(e, a), Encoded(e, b)) }

  /** One character lies above U+FFFF, the other above the surrogates but not above U+FFFF. */
  predicate Cross(c: char, d: char) {
    || (c as int > 0xFFFF && 0xE000 <= d as int <= 0xFFFF)
    || (d as int > 0xFFFF && 0xE000 <= c as int <= 0xFFFF)
  }

  /** The first characters in which the ids differ are such a pair. */
  predicate Crossing(a: string, b: string) {
    && a != [] && b != []
    && (if a[0] == b[0] then Crossing(a[1..], b[1..]) else Cross(a[0], b[0]))
  }

  lemma Utf8Decides(c: int, d: int, x: seq<int>, y: seq<int>)
    requires 0 <= c < d < 0x11_0000
    ensures SeqBefore(Utf8Bytes(c) + x, Utf8Bytes(d) + y)
  {
    var p, q := Utf8Bytes(c) + x, Utf8Bytes(d) + y;
    var k := if p[0] != q[0] then 0 else if p[1] != q[1] then 1 else if p[2] != q[2] then 2 else 3;
    FirstDifference(p, q, k);
  }

  lemma Utf16Decides(c: char, d: char, x: seq<int>, y: seq<int>)
    requires c < d
    ensures if Cross(c, d) then SeqBefore(Utf16Units(d as int) + y, Utf16Units(c as int) + x)
            else SeqBefore(Utf16Units(c as int) + x, Utf16Units(d as int) + y)
  {
    var p, q := Utf16Units(c as int) + x, Utf16Units(d as int) + y;
    var k := if p[0] != q[0] then 0 else 1;
    if Cross(c, d) { FirstDifference(q, p, k); } else { FirstDifference(p, q, k); }
  }

  /** Two characters that differ decide the order of what they begin. */
  lemma UnitsDecide(e: Encoding, c: char, d: char, x: seq<int>, y: seq<int>)
    requires c != d
    ensures SeqBefore(Units(e, c) + x, Units(e, d) + y) <==> (if e.Utf16? && Cross(c, d) then d < c else c < d)
    ensures Units(e, c) + x != Units(e, d) + y
  {
    var p, q := Units(e, c) + x, Units(e, d) + y;
    SeqOrder(p, q, p);
    if c < d {
      if e.Utf8? { Utf8Decides(c as int, d as int, x, y); } else { Utf16Decides(c, d, x, y); }
    } else {
      if e.Utf8? { Utf8Decides(d as int, c as int, y, x); } else { Utf16Decides(d, c, y, x); }
    }
  }

  lemma {:induction false} EncodedInjective(e: Encoding, a: string, b: string)
    requires a != b
    ensures Encoded(e, a) != Encoded(e, b)
  {
    if a != [] && b != [] {
      var x, y := Encoded(e, a[1..]), Encoded(e, b[1..]);
      if a[0] != b[0] {
        UnitsDecide(e, a[0], b[0], x, y);
      } else {
        assert a[1..] != b[1..] by { assert a == [a[0]] + a[1..] && b == [b[0]] + b[1..]; }
        EncodedInjective(e, a[1..], b[1..]);
        var p := Units(e, a[0]);
        assert (p + x)[|p|..] == x && (p + y)[|p|..] == y;
      }
    }
  }

  /** Either order of ids is total, irreflexive and transitive. */
  lemma IdsOrdered(e: Encoding, a: string, b: string, c: string)
    ensures !IdBefore(e, a, a) && (IdBefore(e, a, b) || a == b || IdBefore(e, b, a)) && !(IdBefore(e, a, b) && IdBefore(e, b, a))
    ensures IdBefore(e, a, b) && IdBefore(e, b, c) ==> IdBefore(e, a, c)
  {
    SeqOrder(Encoded(e, a), Encoded(e, b), Encoded(e, c));
    SeqOrder(Encoded(e, a), Encoded(e, a), Encoded(e, a));
    if a != b { EncodedInjective(e, a, b); }
  }

  /** JavaScript and SQLite order two ids alike exactly if their first difference is no such pair. */
  lemma {:induction false} OrdersAgree(a: string, b: string)
    requires a != b
    ensures (IdBefore(Utf16, a, b) <==> IdBefore(Utf8, a, b)) <==> !Crossing(a, b)
  {
    if a == [] || b == [] {
    } else if a[0] == b[0] {
      assert a[1..] != b[1..] by { assert a == [a[0]] + a[1..] && b == [b[0]] + b[1..]; }
      OrdersAgree(a[1..], b[1..]);
      forall e ensures IdBefore(e, a, b) <==> IdBefore(e, a[1..], b[1..]) {
        SamePrefix(Units(e, a[0]), Encoded(e, a[1..]), Encoded(e, b[1..]));
      }
    } else {
      UnitsDecide(Utf8, a[0], b[0], Encoded(Utf8, a[1..]), Encoded(Utf8, b[1..]));
      UnitsDecide(Utf16, a[0], b[0], Encoded(Utf16, a[1..]), Encoded(Utf16, b[1..]));
    }
  }
}
