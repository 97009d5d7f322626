// The auditor's fingerprint of a snapshot does not depend on the order of collection.
//
// JSON text is an injective encoding here: the two row encoders and the final rendering
// are parameters that may be any injective functions.
module Fingerprint {
  import opened AuditTypes

  // ---------- the order of texts ----------

  /** `a <= b` by UTF-16 code units. */
  predicate TextLeq(a: string, b: string) {
    a == [] || (b != [] && (a[0] < b[0] || (a[0] == b[0] && TextLeq(a[1..], b[1..]))))
  }

  lemma {:induction false} LeqTotal(a: string, b: string)
    ensures TextLeq(a, b) || TextLeq(b, a)
    ensures TextLeq(a, b) && TextLeq(b, a) ==> a == b
    decreases |a|
  {
    if a != [] && b != [] && a[0] == b[0] {
      LeqTotal(a[1..], b[1..]);
      if TextLeq(a, b) && TextLeq(b, a) {
        assert a == [a[0]] + a[1..];
        assert b == [b[0]] + b[1..];
      }
    }
  }

  lemma {:induction false} LeqTransitive(a: string, b: string, c: string)
    requires TextLeq(a, b) && TextLeq(b, c)
    ensures TextLeq(a, c)
    decreases |a|
  {
    if a != [] && a[0] == b[0] == c[0] {
      LeqTransitive(a[1..], b[1..], c[1..]);
    }
  }

  // ---------- sorting by text ----------

  function Insert<T>(x: T, s: seq<T>, text: T -> string): seq<T> {
    if s == [] then [x]
    else if TextLeq(text(x), text(s[0])) then [x] + s
    else [s[0]] + Insert(x, s[1..], text)
  }

  function Sort<T>(s: seq<T>, text: T -> string): seq<T> {
    if s == [] then [] else Insert(s[0], Sort(s[1..], text), text)
  }

  ghost predicate Sorted<T>(s: seq<T>, text: T -> string) {
    forall i, j :: 0 <= i <= j < |s| ==> TextLeq(text(s[i]), text(s[j]))
  }

  ghost predicate Injective<T(!new)>(text: T -> string) {
    forall x, y :: text(x) == text(y) ==> x == y
  }

  ghost predicate Below<T>(x: T, s: seq<T>, text: T -> string) {
    forall j :: 0 <= j < |s| ==> TextLeq(text(x), text(s[j]))
  }

  lemma PrependSorts<T>(x: T, s: seq<T>, text: T -> string)
    requires Sorted(s, text) && Below(x, s, text)
    ensures Sorted([x] + s, text)
  {
    LeqTotal(text(x), text(x));
  }

  lemma BelowHead<T>(x: T, s: seq<T>, text: T -> string)
    requires Sorted(s, text) && s != [] && TextLeq(text(x), text(s[0]))
    ensures Below(x, s, text)
  {
    forall j | 0 <= j < |s| ensures TextLeq(text(x), text(s[j])) {
      LeqTransitive(text(x), text(s[0]), text(s[j]));
    }
  }

  lemma {:induction false} BelowInsert<T>(low: T, x: T, s: seq<T>, text: T -> string)
    requires TextLeq(text(low), text(x)) && Below(low, s, text)
    ensures Below(low, Insert(x, s, text), text)
    decreases |s|
  {
    if s != [] && !TextLeq(text(x), text(s[0])) {
      BelowInsert(low, x, s[1..], text);
    }
  }

  lemma {:induction false} InsertSorts<T>(x: T, s: seq<T>, text: T -> string)
    requires Sorted(s, text)
    ensures Sorted(Insert(x, s, text), text)
    decreases |s|
  {
    if s == [] {
      LeqTotal(text(x), text(x));
    } else if TextLeq(text(x), text(s[0])) {
      BelowHead(x, s, text);
      PrependSorts(x, s, text);
    } else {
      LeqTotal(text(x), text(s[0]));
      InsertSorts(x, s[1..], text);
      BelowInsert(s[0], x, s[1..], text);
      PrependSorts(s[0], Insert(x, s[1..], text), text);
    }
  }

  lemma {:induction false} InsertKeeps<T>(x: T, s: seq<T>, text: T -> string)
    ensures multiset(Insert(x, s, text)) == multiset{x} + multiset(s)
    decreases |s|
  {
    if s != [] {
      assert s == [s[0]] + s[1..];
      InsertKeeps(x, s[1..], text);
    }
  }

  lemma {:induction false} SortSorts<T>(s: seq<T>, text: T -> string)
    ensures Sorted(Sort(s, text), text)
    ensures multiset(Sort(s, text)) == multiset(s)
    decreases |s|
  {
    if s != [] {
      SortSorts(s[1..], text);
      InsertSorts(s[0], Sort(s[1..], text), text);
      InsertKeeps(s[0], Sort(s[1..], text), text);
      assert s == [s[0]] + s[1..];
    }
  }

  lemma SortedFirst<T(!new)>(a: seq<T>, b: seq<T>, text: T -> string)
    requires Injective(text) && Sorted(a, text) && Sorted(b, text) && multiset(a) == multiset(b)
    requires a != [] && b != []
    ensures a[0] == b[0]
  {
    assert a[0] in multiset(b) && b[0] in multiset(a);
    var i :| 0 <= i < |b| && b[i] == a[0];
    var j :| 0 <= j < |a| && a[j] == b[0];
    assert TextLeq(text(b[0]), text(b[i])) && TextLeq(text(a[0]), text(a[j]));
    LeqTotal(text(a[0]), text(b[0]));
  }

  lemma TailBag<T>(s: seq<T>)
    requires s != []
    ensures multiset(s[1..]) == multiset(s) - multiset{s[0]}
    ensures s == [s[0]] + s[1..]
  {
    assert s == [s[0]] + s[1..];
  }

  /** There is only one sorted arrangement of a multiset. */
  lemma {:induction false} SortedIsUnique<T(!new)>(a: seq<T>, b: seq<T>, text: T -> string)
    requires Injective(text) && Sorted(a, text) && Sorted(b, text) && multiset(a) == multiset(b)
    ensures a == b
    decreases |a|
  {
    assert |a| == |multiset(a)| == |multiset(b)| == |b|;
    if a != [] {
      SortedFirst(a, b, text);
      TailBag(a);
      TailBag(b);
      SortedIsUnique(a[1..], b[1..], text);
    }
  }

  lemma SortsAgreeIff<T(!new)>(a: seq<T>, b: seq<T>, text: T -> string)
    requires Injective(text)
    ensures Sort(a, text) == Sort(b, text) <==> multiset(a) == multiset(b)
  {
    SortSorts(a, text);
    SortSorts(b, text);
    if multiset(a) == multiset(b) {
      SortedIsUnique(Sort(a, text), Sort(b, text), text);
    }
  }

  // ---------- the fingerprint ----------

  datatype Canonical = Canonical(
    scalars: Scalars,
    orders: seq<Order>,
    buyers: seq<string>,
    reservations: seq<LedgerEntry>,
    ledgerErrors: seq<string>)

  function Canonicalise(s: Snapshot, orderText: Order -> string, reservationText: LedgerEntry -> string): Canonical {
    Canonical(s.scalars, Sort(s.orders, orderText), Sort(s.buyers, Plain),
              Sort(s.reservations, reservationText), Sort(s.ledgerErrors, Plain))
  }

  /** Strings sort by their own text. */
  function Plain(t: string): string {
    t
  }

  /** The same system was seen: orders and errors as multisets, buyers as a set, reservations as a map. */
  ghost predicate SameContent(a: Snapshot, b: Snapshot) {
    && a.scalars == b.scalars
    && multiset(a.orders) == multiset(b.orders)
    && (forall u :: u in a.buyers <==> u in b.buyers)
    && (forall r :: r in a.reservations <==> r in b.reservations)
    && multiset(a.ledgerErrors) == multiset(b.ledgerErrors)
  }

  /** Lists without repetition have the same elements exactly when they have the same multiset. */
  lemma {:induction false} SimpleMultiset<T>(s: seq<T>, x: T)
    requires forall i, j :: 0 <= i < j < |s| ==> s[i] != s[j]
    ensures multiset(s)[x] == if x in s then 1 else 0
    decreases |s|
  {
    if s != [] {
      SimpleMultiset(s[1..], x);
      assert s == [s[0]] + s[1..];
    }
  }

  lemma SetsAgreeIff<T(!new)>(a: seq<T>, b: seq<T>)
    requires forall i, j :: 0 <= i < j < |a| ==> a[i] != a[j]
    requires forall i, j :: 0 <= i < j < |b| ==> b[i] != b[j]
    ensures multiset(a) == multiset(b) <==> forall x :: x in a <==> x in b
  {
    if forall x :: x in a <==> x in b {
      forall x: T ensures multiset(a)[x] == multiset(b)[x] {
        SimpleMultiset(a, x);
        SimpleMultiset(b, x);
        assert x in a <==> x in b;
      }
    } else {
      var x :| (x in a) != (x in b);
      SimpleMultiset(a, x);
      SimpleMultiset(b, x);
    }
  }

  lemma CanonicalsAgreeIff(
      a: Snapshot, b: Snapshot, orderText: Order -> string, reservationText: LedgerEntry -> string)
    requires Injective(orderText) && Injective(reservationText)
    ensures Canonicalise(a, orderText, reservationText) == Canonicalise(b, orderText, reservationText)
       <==> && a.scalars == b.scalars
            && multiset(a.orders) == multiset(b.orders)
            && multiset(a.buyers) == multiset(b.buyers)
            && multiset(a.reservations) == multiset(b.reservations)
            && multiset(a.ledgerErrors) == multiset(b.ledgerErrors)
  {
    assert Injective(Plain);
    SortsAgreeIff(a.orders, b.orders, orderText);
    SortsAgreeIff(a.buyers, b.buyers, Plain);
    SortsAgreeIff(a.reservations, b.reservations, reservationText);
    SortsAgreeIff(a.ledgerErrors, b.ledgerErrors, Plain);
  }

  /** Two fingerprints are equal exactly when the snapshots have the same content. */
  lemma FingerprintsAgreeIff(
      a: Snapshot, b: Snapshot,
      orderText: Order -> string, reservationText: LedgerEntry -> string, render: Canonical -> string)
    requires Collected(a) && Collected(b)
    requires Injective(orderText) && Injective(reservationText) && Injective(render)
    ensures render(Canonicalise(a, orderText, reservationText)) == render(Canonicalise(b, orderText, reservationText))
       <==> SameContent(a, b)
  {
    CanonicalsAgreeIff(a, b, orderText, reservationText);
    SetsAgreeIff(a.buyers, b.buyers);
    SetsAgreeIff(a.reservations, b.reservations);
  }
}
