/** Record ids: how the store renders them and how it orders them.

    A node id is "n-" and a relation id "r-", each followed by the minted number
    zero-padded to three digits.  Every ordered walk in the store compares these
    STRINGS, so beyond 999 the order of ids is not the order of minting. */
module Ids {

  type Id = string

  function Members(ids: seq<Id>): set<Id> { set x | x in ids }

  datatype Option<+T> = None | Some(value: T)

  const NODE_PREFIX: string := "n-"
  const RELATION_PREFIX: string := "r-"

  // ------------------------------------------------------------ rendering

  function DigitChar(d: nat): char
    requires d < 10
  {
    ('0' as int + d) as char
  }

  function DigitValue(c: char): nat {
    if '0' <= c <= '9' then c as int - '0' as int else 0
  }

  function Digits(n: nat): (s: string)
    ensures |s| >= 1
  {
    if n < 10 then [DigitChar(n)] else Digits(n / 10) + [DigitChar(n % 10)]
  }

  function Pad3(n: nat): string {
    var s := Digits(n);
    if |s| == 1 then "00" + s else if |s| == 2 then "0" + s else s
  }

  /** The number a rendered id carries after its two-character prefix. */
  function Value(s: string): nat {
    if s == "" then 0 else Value(s[..|s| - 1]) * 10 + DigitValue(s[|s| - 1])
  }

  function Num(id: Id): nat {
    if |id| < 2 then 0 else Value(id[2..])
  }

  function NodeId(n: nat): Id { NODE_PREFIX + Pad3(n) }

  function RelationId(n: nat): Id { RELATION_PREFIX + Pad3(n) }

  lemma {:induction false} ValueOfDigits(n: nat)
    ensures Value(Digits(n)) == n
  {
    var s := Digits(n);
    if n < 10 {
      assert s[..0] == "";
    } else {
      ValueOfDigits(n / 10);
      assert s[..|s| - 1] == Digits(n / 10) && s[|s| - 1] == DigitChar(n % 10);
    }
  }

  lemma ValueOfPad3(n: nat)
    ensures Value(Pad3(n)) == n
  {
    hide Digits;
    ValueOfDigits(n);
    var s := Digits(n);
    if |s| == 1 {
      assert ("00" + s)[..2] == "00" && "00"[..1] == "0" && "0"[..0] == "";
    } else if |s| == 2 {
      var z := "0" + s;
      assert z[..2] == "0" + s[..1] && z[2] == s[1];
      assert ("0" + s[..1])[..1] == "0" && ("0" + s[..1])[1] == s[..1][0];
      assert Value("0") == 0 by { assert "0"[..0] == ""; }
      assert Value(s[..1]) == DigitValue(s[0]) by { assert s[..1][..0] == ""; }
      assert Value(z[..2]) == Value(s[..1]);
    }
  }

  /** Rendering is injective: an id gives back the number it was minted from. */
  lemma NumOfRendered(n: nat)
    ensures Num(NodeId(n)) == n && Num(RelationId(n)) == n
  {
    hide Digits;
    ValueOfPad3(n);
    assert NodeId(n)[2..] == Pad3(n);
    assert RelationId(n)[2..] == Pad3(n);
  }

  // ------------------------------------------------------------- ordering

  /** Strict lexicographic order, as the source's sort compares ids. */
  predicate Less(a: string, b: string) {
    if a == "" then b != ""
    else if b == "" then false
    else if a[0] == b[0] then Less(a[1..], b[1..])
    else a[0] < b[0]
  }

  lemma {:induction false} LessIrreflexive(a: string)
    ensures !Less(a, a)
  {
    if a != "" { LessIrreflexive(a[1..]); }
  }

  lemma {:induction false} LessTotal(a: string, b: string)
    ensures a == b || Less(a, b) || Less(b, a)
  {
    if a != "" && b != "" && a[0] == b[0] {
      LessTotal(a[1..], b[1..]);
      if a[1..] == b[1..] {
        assert a == [a[0]] + a[1..] && b == [b[0]] + b[1..];
      }
    }
  }

  lemma {:induction false} LessTransitive(a: string, b: string, c: string)
    requires Less(a, b) && Less(b, c)
    ensures Less(a, c)
  {
    if a != "" && a[0] == b[0] && b[0] == c[0] {
      LessTransitive(a[1..], b[1..], c[1..]);
    }
  }

  lemma LessAsymmetric(a: string, b: string)
    requires Less(a, b)
    ensures !Less(b, a)
  {
    if Less(b, a) {
      LessTransitive(a, b, a);
      LessIrreflexive(a);
    }
  }

  lemma {:induction false} LessPrefixed(p: string, a: string, b: string)
    ensures Less(p + a, p + b) <==> Less(a, b)
  {
    if p == "" {
      assert p + a == a && p + b == b;
    } else {
      LessPrefixed(p[1..], a, b);
      assert (p + a)[1..] == p[1..] + a && (p + b)[1..] == p[1..] + b;
    }
  }

  lemma ThreeDigits(n: nat)
    requires n <= 999
    ensures Pad3(n) == [DigitChar(n / 100), DigitChar(n / 10 % 10), DigitChar(n % 10)]
  {
    if n < 10 {
    } else if n < 100 {
      assert Digits(n) == [DigitChar(n / 10)] + [DigitChar(n % 10)];
    } else {
      assert n / 10 / 10 == n / 100;
      assert Digits(n / 10) == [DigitChar(n / 100)] + [DigitChar(n / 10 % 10)];
    }
  }

  lemma ThreeCharsOrder(s: string, t: string)
    requires |s| == 3 && |t| == 3
    ensures Less(s, t) <==> (s[0] < t[0] || (s[0] == t[0] && (s[1] < t[1] || (s[1] == t[1] && s[2] < t[2]))))
  {
    assert s[1..][1..] == [s[2]] && t[1..][1..] == [t[2]];
    assert [s[2]][1..] == "" && [t[2]][1..] == "";
    assert Less([s[2]], [t[2]]) <==> s[2] < t[2];
    assert Less(s[1..], t[1..]) <==> (if s[1] == t[1] then Less(s[1..][1..], t[1..][1..]) else s[1] < t[1]);
  }

  lemma DecimalPlaces(n: nat)
    ensures n == n / 100 * 100 + n / 10 % 10 * 10 + n % 10
  {
    assert n / 10 / 10 == n / 100;
  }

  lemma PlacesOrder(h: nat, t: nat, u: nat, h': nat, t': nat, u': nat)
    requires h < 10 && t < 10 && u < 10 && h' < 10 && t' < 10 && u' < 10
    ensures h * 100 + t * 10 + u < h' * 100 + t' * 10 + u' <==>
            (DigitChar(h) < DigitChar(h') ||
             (DigitChar(h) == DigitChar(h') &&
              (DigitChar(t) < DigitChar(t') || (DigitChar(t) == DigitChar(t') && DigitChar(u) < DigitChar(u')))))
  {
    assert forall d: nat, e: nat | d < 10 && e < 10 :: DigitChar(d) < DigitChar(e) <==> d < e;
    assert forall d: nat, e: nat | d < 10 && e < 10 :: DigitChar(d) == DigitChar(e) <==> d == e;
  }

  /** Up to 999 ids of one kind sort in the order they were minted ... */
  lemma MintOrderBelowThousand(a: nat, b: nat)
    requires a <= 999 && b <= 999
    ensures Less(RelationId(a), RelationId(b)) <==> a < b
  {
    ThreeDigits(a);
    ThreeDigits(b);
    ThreeCharsOrder(Pad3(a), Pad3(b));
    LessPrefixed(RELATION_PREFIX, Pad3(a), Pad3(b));
    DecimalPlaces(a);
    DecimalPlaces(b);
    PlacesOrder(a / 100, a / 10 % 10, a % 10, b / 100, b / 10 % 10, b % 10);
  }

  /** ... and past 999 they do not: the thousandth sorts before the 999th. */
  lemma MintOrderBreaksAtThousand()
    ensures Less(RelationId(1000), RelationId(999))
  {
    assert Digits(1) == "1" && Digits(10) == "10" && Digits(100) == "100" && Digits(1000) == "1000";
    assert Digits(9) == "9" && Digits(99) == "99" && Digits(999) == "999";
    assert Less("1000", "999");
    LessPrefixed(RELATION_PREFIX, "1000", "999");
  }

  // -------------------------------------------------------------- sorting

  predicate Ascending(s: seq<Id>) {
    forall i, j :: 0 <= i < j < |s| ==> Less(s[i], s[j])
  }

  /** *s* lists the set exactly once each, in id order. */
  ghost predicate Lists(s: seq<Id>, ids: set<Id>) {
    Ascending(s) && forall x :: x in s <==> x in ids
  }

  lemma {:induction false} LeastExists(ids: set<Id>)
    requires ids != {}
    ensures exists x :: x in ids && forall y :: y in ids ==> y == x || Less(x, y)
  {
    hide Less;
    var z :| z in ids;
    if ids == {z} {
      assert z in ids && forall y :: y in ids ==> y == z || Less(z, y);
    } else {
      var rest := ids - {z};
      LeastExists(rest);
      var x :| x in rest && forall y :: y in rest ==> y == x || Less(x, y);
      LessTotal(x, z);
      if Less(z, x) {
        forall y | y in ids ensures y == z || Less(z, y) {
          if y != z && y != x { LessTransitive(z, x, y); }
        }
        assert z in ids && forall y :: y in ids ==> y == z || Less(z, y);
      } else {
        assert x in ids && forall y :: y in ids ==> y == x || Less(x, y);
      }
    }
  }

  ghost function Least(ids: set<Id>): (x: Id)
    requires ids != {}
    ensures x in ids && forall y :: y in ids ==> y == x || Less(x, y)
  {
    hide Less;
    LeastExists(ids);
    var x :| x in ids && forall y :: y in ids ==> y == x || Less(x, y);
    x
  }

  /** The ids of a set in ascending order: what `sorted(...)` over ids yields. */
  ghost function Sorted(ids: set<Id>): (s: seq<Id>)
    ensures Lists(s, ids)
    ensures |s| == |ids|
  {
    hide Less;
    if ids == {} then []
    else
      var x := Least(ids);
      var rest := Sorted(ids - {x});
      assert forall i :: 0 <= i < |rest| ==> rest[i] in ids - {x};
      [x] + rest
  }

  lemma {:induction false} ListingIsUnique(s: seq<Id>, t: seq<Id>, ids: set<Id>)
    requires Lists(s, ids) && Lists(t, ids)
    ensures s == t
  {
    hide Less;
    assert s != [] ==> s[0] in ids;
    assert t != [] ==> t[0] in ids;
    if s != [] {
      assert t[0] in t && t[0] in s && s[0] in t;
      if s[0] != t[0] {
        var i :| 0 <= i < |s| && s[i] == t[0];
        var j :| 0 <= j < |t| && t[j] == s[0];
        assert Less(s[0], t[0]) && Less(t[0], s[0]);
        LessAsymmetric(s[0], t[0]);
      }
      TailLists(s, ids);
      TailLists(t, ids);
      ListingIsUnique(s[1..], t[1..], ids - {s[0]});
      assert s == [s[0]] + s[1..] && t == [t[0]] + t[1..];
    }
  }

  lemma TailLists(s: seq<Id>, ids: set<Id>)
    requires Lists(s, ids) && s != []
    ensures s[0] in ids && Lists(s[1..], ids - {s[0]})
  {
    hide Less;
    assert s[0] in s;
    forall x ensures x in s[1..] <==> x in ids - {s[0]} {
      if x in s[1..] {
        var i :| 0 <= i < |s[1..]| && s[1..][i] == x;
        assert s[i + 1] == x && Less(s[0], x);
        LessIrreflexive(x);
      }
      if x in ids - {s[0]} {
        assert x in s;
        var i :| 0 <= i < |s| && s[i] == x;
        assert s[1..][i - 1] == x;
      }
    }
  }

  lemma ListingIsSorted(s: seq<Id>, ids: set<Id>)
    requires Lists(s, ids)
    ensures s == Sorted(ids)
  {
    hide Less;
    ListingIsUnique(s, Sorted(ids), ids);
  }

  lemma AscendingDistinct(s: seq<Id>)
    requires Ascending(s)
    ensures forall i, j :: 0 <= i < j < |s| ==> s[i] != s[j]
  {
    hide Less;
    forall i, j | 0 <= i < j < |s| ensures s[i] != s[j] {
      LessIrreflexive(s[i]);
    }
  }

  /** Computes the least id of a non-empty set. */
  method PickLeast(ids: set<Id>) returns (x: Id)
    requires ids != {}
    ensures x in ids && forall y :: y in ids ==> y == x || Less(x, y)
  {
    hide Less;
    x :| x in ids;
    var rest := ids - {x};
    while rest != {}
      invariant x in ids && rest <= ids
      invariant forall y :: y in ids - rest ==> y == x || Less(x, y)
      decreases rest
    {
      var y :| y in rest;
      rest := rest - {y};
      LessTotal(x, y);
      if Less(y, x) {
        forall z | z in ids - rest ensures z == y || Less(y, z) {
          if z != y && z != x { LessTransitive(y, x, z); }
        }
        x := y;
      }
    }
  }

  method SortIds(ids: set<Id>) returns (s: seq<Id>)
    ensures s == Sorted(ids)
  {
    hide Less;
    s := [];
    var rest := ids;
    while rest != {}
      invariant rest <= ids
      invariant Lists(s, ids - rest)
      invariant forall x, y :: x in s && y in rest ==> Less(x, y)
      decreases rest
    {
      var x := PickLeast(rest);
      s := s + [x];
      rest := rest - {x};
    }
    ListingIsSorted(s, ids);
  }
}
