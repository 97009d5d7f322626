// The rotation of the failed-job sweep over the list of failed jobs.
//
// A sweep looks at one window of at most `k` entries. A sweep that removes something stays
// where it is; one that removes nothing moves its offset past the window.
module FailedSweep {
  import opened Types

  /** The listed jobs outside `removable`, in order. */
  function Without(list: seq<UserId>, removable: set<UserId>): seq<UserId> {
    if list == [] then []
    else (if list[0] in removable then [] else [list[0]]) + Without(list[1..], removable)
  }

  function Count(list: seq<UserId>, removable: set<UserId>): nat {
    if list == [] then 0
    else (if list[0] in removable then 1 else 0) + Count(list[1..], removable)
  }

  function NextOffset(start: nat, taken: nat, removed: nat, left: nat): nat {
    if left == 0 then 0
    else if removed > 0 then (if start < left - 1 then start else left - 1)
    else (start + taken) % left
  }

  /**
   * The next sweep starts where this one did if something was removed there, or at the last
   * entry if the list has become shorter than that; otherwise it starts right behind this
   * one's window, and at the front again after the last entry.
   */
  lemma NextOffsetMeans(start: nat, taken: nat, removed: nat, left: nat)
    requires start + taken <= left + removed && removed <= taken
    ensures var next := NextOffset(start, taken, removed, left);
            && (left == 0 ==> next == 0)
            && (left > 0 ==> next < left)
            && (removed > 0 && start < left ==> next == start)
            && (removed > 0 && start >= left > 0 ==> next == left - 1)
            && (removed == 0 && start + taken < left ==> next == start + taken)
            && (removed == 0 && start + taken == left ==> next == 0)
  {
  }

  /** A sweep looks at `k` entries, or at what is left of the list. */
  lemma WindowEndMeans(start: nat, k: nat, n: nat)
    requires start <= n
    ensures WindowEnd(start, k, n) - start == (if k <= n - start then k else n - start)
  {
  }

  function WindowEnd(start: nat, k: nat, n: nat): nat {
    if start + k < n then start + k else n
  }

  /** The list and offset after one sweep of at most `k` entries. */
  function Sweep(list: seq<UserId>, offset: nat, k: nat, removable: set<UserId>): (seq<UserId>, nat)
    requires k > 0
  {
    if list == [] then ([], 0) else
    var start := offset % |list|;
    var end := WindowEnd(start, k, |list|);
    var left := list[..start] + Without(list[start..end], removable) + list[end..];
    (left, NextOffset(start, end - start, Count(list[start..end], removable), |left|))
  }

  function After(list: seq<UserId>, offset: nat, k: nat, removable: set<UserId>, m: nat): (seq<UserId>, nat)
    requires k > 0
    decreases m
  {
    if m == 0 then (list, offset) else
    var (list', offset') := Sweep(list, offset, k, removable);
    After(list', offset', k, removable, m - 1)
  }

  /** How many windows of size `k` cover `n` entries: `n / k`, rounded up. */
  function Windows(n: nat, k: nat): nat
    requires k > 0
  {
    if n == 0 then 0 else 1 + Windows(if n <= k then 0 else n - k, k)
  }

  // ---------- every position is visited ----------

  /** Where the window starts after `j` sweeps that removed nothing. */
  function Turn(n: nat, k: nat, start: nat, j: nat): nat
    decreases j
  {
    if j == 0 then start else Turn(n, k, if start + k >= n then 0 else start + k, j - 1)
  }

  lemma {:induction false} VisitsAhead(n: nat, k: nat, start: nat, i: nat) returns (j: nat)
    requires k > 0 && start <= i < n
    ensures Turn(n, k, start, j) <= i < Turn(n, k, start, j) + k
    ensures j < Windows(i + 1 - start, k)
    decreases n - start
  {
    if i < start + k {
      j := 0;
    } else {
      j := VisitsAhead(n, k, start + k, i);
      j := j + 1;
    }
  }

  lemma {:induction false} VisitsBehind(n: nat, k: nat, start: nat, i: nat) returns (j: nat)
    requires k > 0 && i < start < n
    ensures Turn(n, k, start, j) <= i < Turn(n, k, start, j) + k
    ensures j < Windows(n - start, k) + Windows(i + 1, k)
    decreases n - start
  {
    if start + k >= n {
      j := VisitsAhead(n, k, 0, i);
    } else {
      j := VisitsBehind(n, k, start + k, i);
    }
    j := j + 1;
  }

  lemma {:induction false} WindowsMonotone(a: nat, b: nat, k: nat)
    requires k > 0 && a <= b
    ensures Windows(a, k) <= Windows(b, k)
    decreases b
  {
    if a > k {
      WindowsMonotone(a - k, b - k, k);
    }
  }

  lemma {:induction false} WindowsJoin(a: nat, b: nat, k: nat)
    requires k > 0
    ensures Windows(a, k) + Windows(b, k) <= Windows(a + b, k) + 1
    decreases a
  {
    if a > k {
      WindowsJoin(a - k, b, k);
    } else {
      WindowsMonotone(b, a + b, k);
    }
  }

  /** From any start, `ceil(n/k) + 1` removal-free sweeps look at every position. */
  lemma SweepsVisitEverything(n: nat, k: nat, start: nat, i: nat) returns (j: nat)
    requires k > 0 && start < n && i < n
    ensures j < Windows(n, k) + 1
    ensures Turn(n, k, start, j) <= i < Turn(n, k, start, j) + k
  {
    if start <= i {
      j := VisitsAhead(n, k, start, i);
      WindowsMonotone(i + 1 - start, n, k);
    } else {
      j := VisitsBehind(n, k, start, i);
      WindowsJoin(n - start, i + 1, k);
      WindowsMonotone(n - start + i + 1, n, k);
    }
  }

  // ---------- every removable job is removed ----------

  lemma {:induction false} Splits(a: seq<UserId>, b: seq<UserId>, removable: set<UserId>)
    ensures Count(a + b, removable) == Count(a, removable) + Count(b, removable)
    ensures Without(a + b, removable) == Without(a, removable) + Without(b, removable)
    decreases |a|
  {
    if a == [] {
      assert a + b == b;
    } else {
      assert (a + b)[0] == a[0] && (a + b)[1..] == a[1..] + b;
      Splits(a[1..], b, removable);
      var head := if a[0] in removable then [] else [a[0]];
      assert Without(a + b, removable) == head + (Without(a[1..], removable) + Without(b, removable));
    }
  }

  lemma CountStep(list: seq<UserId>, removable: set<UserId>, i: nat)
    requires i < |list|
    ensures Count(list[..i + 1], removable) == Count(list[..i], removable) + if list[i] in removable then 1 else 0
  {
    assert list[..i + 1] == list[..i] + [list[i]];
    Splits(list[..i], [list[i]], removable);
  }

  lemma {:induction false} WithoutRemoves(list: seq<UserId>, removable: set<UserId>)
    ensures Count(Without(list, removable), removable) == 0
    ensures |Without(list, removable)| == |list| - Count(list, removable)
    ensures Without(Without(list, removable), removable) == Without(list, removable)
    ensures Count(list, removable) == 0 ==> Without(list, removable) == list
    decreases |list|
  {
    if list != [] {
      WithoutRemoves(list[1..], removable);
      var head := if list[0] in removable then [] else [list[0]];
      Splits(head, Without(list[1..], removable), removable);
      if Count(list, removable) == 0 {
        assert list == [list[0]] + list[1..];
      }
    }
  }

  lemma {:induction false} CountsMember(list: seq<UserId>, removable: set<UserId>, i: nat)
    requires i < |list| && list[i] in removable
    ensures Count(list, removable) > 0
    decreases i
  {
    if i > 0 {
      CountsMember(list[1..], removable, i - 1);
    }
  }

  lemma {:induction false} CountedMember(list: seq<UserId>, removable: set<UserId>) returns (i: nat)
    requires Count(list, removable) > 0
    ensures i < |list| && list[i] in removable
    decreases |list|
  {
    if list[0] in removable {
      i := 0;
    } else {
      i := CountedMember(list[1..], removable);
      i := i + 1;
    }
  }

  /** One sweep removes exactly the removable jobs of its window and nothing else. */
  lemma SweepEffect(list: seq<UserId>, offset: nat, k: nat, removable: set<UserId>)
    requires k > 0 && list != []
    ensures var (left, _) := Sweep(list, offset, k, removable);
            var start := offset % |list|;
            var hit := Count(list[start..WindowEnd(start, k, |list|)], removable);
            && Count(left, removable) == Count(list, removable) - hit
            && |left| == |list| - hit
            && Without(left, removable) == Without(list, removable)
            && (hit == 0 ==> left == list)
  {
    var start := offset % |list|;
    var end := WindowEnd(start, k, |list|);
    var a, b, c := list[..start], list[start..end], list[end..];
    assert list == a + b + c;
    Splits(a + b, c, removable);
    Splits(a, b, removable);
    Splits(a + Without(b, removable), c, removable);
    Splits(a, Without(b, removable), removable);
    WithoutRemoves(b, removable);
  }

  lemma OneSweepOnlyRemoves(list: seq<UserId>, offset: nat, k: nat, removable: set<UserId>)
    requires k > 0
    ensures var left := Sweep(list, offset, k, removable).0;
            && Count(left, removable) <= Count(list, removable)
            && |left| <= |list|
            && Without(left, removable) == Without(list, removable)
  {
    if list != [] {
      SweepEffect(list, offset, k, removable);
    }
  }

  lemma {:induction false} SweepsOnlyRemove(list: seq<UserId>, offset: nat, k: nat, removable: set<UserId>, m: nat)
    requires k > 0
    ensures var (left, _) := After(list, offset, k, removable, m);
            && Count(left, removable) <= Count(list, removable)
            && |left| <= |list|
            && Without(left, removable) == Without(list, removable)
    decreases m
  {
    if m != 0 {
      var (list', offset') := Sweep(list, offset, k, removable);
      OneSweepOnlyRemoves(list, offset, k, removable);
      SweepsOnlyRemove(list', offset', k, removable, m - 1);
      assert After(list, offset, k, removable, m) == After(list', offset', k, removable, m - 1);
    }
  }

  lemma Wraps(start: nat, end: nat, n: nat)
    requires start < end <= n
    ensures (start + (end - start)) % n == if end == n then 0 else end
    ensures (if end == n then 0 else end) % n == if end == n then 0 else end
  {
  }

  /** The entries the next sweep looks at. */
  function Window(list: seq<UserId>, offset: nat, k: nat): seq<UserId>
    requires list != []
  {
    list[offset % |list|..WindowEnd(offset % |list|, k, |list|)]
  }

  /** A sweep that removes nothing keeps the list and moves the window on. */
  lemma QuietSweep(list: seq<UserId>, offset: nat, k: nat, removable: set<UserId>)
    requires k > 0 && list != [] && Count(Window(list, offset, k), removable) == 0
    ensures var (left, next) := Sweep(list, offset, k, removable);
            left == list && next % |list| == Turn(|list|, k, offset % |list|, 1)
  {
    SweepEffect(list, offset, k, removable);
    var n, start := |list|, offset % |list|;
    Wraps(start, WindowEnd(start, k, n), n);
    assert Turn(n, k, start, 1) == Turn(n, k, if start + k >= n then 0 else start + k, 0);
  }

  lemma TurnStep(n: nat, k: nat, start: nat, j: nat)
    requires j > 0
    ensures Turn(n, k, start, j) == Turn(n, k, Turn(n, k, start, 1), j - 1)
  {
    assert Turn(n, k, start, 1) == Turn(n, k, if start + k >= n then 0 else start + k, 0);
  }

  /** A sweep whose window holds a removable job removes something. */
  lemma BusySweep(list: seq<UserId>, offset: nat, k: nat, removable: set<UserId>, i: nat)
    requires k > 0 && i < |list| && list[i] in removable
    requires offset % |list| <= i < offset % |list| + k
    ensures Count(Window(list, offset, k), removable) > 0
  {
    var start := offset % |list|;
    assert Window(list, offset, k)[i - start] == list[i];
    CountsMember(Window(list, offset, k), removable, i - start);
  }

  /** The sweep that reaches a removable job removes something, unless an earlier one already did. */
  lemma {:induction false} SweepReaches(
      list: seq<UserId>, offset: nat, k: nat, removable: set<UserId>, i: nat, j: nat)
    requires k > 0 && i < |list| && list[i] in removable
    requires var turn := Turn(|list|, k, offset % |list|, j); turn <= i < turn + k
    ensures Count(After(list, offset, k, removable, j + 1).0, removable) < Count(list, removable)
    decreases j
  {
    var (list', offset') := Sweep(list, offset, k, removable);
    if Count(Window(list, offset, k), removable) == 0 {
      if j == 0 {
        BusySweep(list, offset, k, removable, i);
      } else {
        QuietSweep(list, offset, k, removable);
        TurnStep(|list|, k, offset % |list|, j);
        SweepReaches(list', offset', k, removable, i, j - 1);
      }
    } else {
      SweepEffect(list, offset, k, removable);
      SweepsOnlyRemove(list', offset', k, removable, j);
    }
  }

  lemma {:induction false} AfterJoins(
      list: seq<UserId>, offset: nat, k: nat, removable: set<UserId>, m: nat, m': nat)
    requires k > 0
    ensures var (mid, at) := After(list, offset, k, removable, m);
            After(list, offset, k, removable, m + m') == After(mid, at, k, removable, m')
    decreases m
  {
    if m != 0 {
      var (list', offset') := Sweep(list, offset, k, removable);
      AfterJoins(list', offset', k, removable, m - 1, m');
    }
  }

  /** Some sweep of the next `ceil(n/k) + 1` removes something. */
  lemma SomeSweepRemoves(list: seq<UserId>, offset: nat, k: nat, removable: set<UserId>) returns (j: nat)
    requires k > 0 && Count(list, removable) > 0
    ensures j < Windows(|list|, k) + 1
    ensures Count(After(list, offset, k, removable, j + 1).0, removable) < Count(list, removable)
  {
    var i := CountedMember(list, removable);
    j := SweepsVisitEverything(|list|, k, offset % |list|, i);
    SweepReaches(list, offset, k, removable, i, j);
  }

  /** While something is removable, each round of `rounds` sweeps removes something. */
  lemma RoundRemoves(list: seq<UserId>, offset: nat, k: nat, removable: set<UserId>, rounds: nat)
    requires k > 0 && Count(list, removable) > 0 && rounds >= Windows(|list|, k) + 1
    ensures Count(After(list, offset, k, removable, rounds).0, removable) < Count(list, removable)
  {
    var j := SomeSweepRemoves(list, offset, k, removable);
    var (mid, at) := After(list, offset, k, removable, j + 1);
    AfterJoins(list, offset, k, removable, j + 1, rounds - (j + 1));
    SweepsOnlyRemove(mid, at, k, removable, rounds - (j + 1));
  }

  /** `rounds` for each of `r` removable jobs. */
  function Enough(r: nat, rounds: nat): nat {
    if r == 0 then 0 else rounds + Enough(r - 1, rounds)
  }

  lemma {:induction false} EnoughGrows(a: nat, b: nat, rounds: nat)
    requires a < b
    ensures Enough(a, rounds) + rounds <= Enough(b, rounds)
  {
    if a + 1 < b {
      EnoughGrows(a, b - 1, rounds);
    }
  }

  lemma {:induction false} EnoughIsProduct(r: nat, rounds: nat)
    ensures Enough(r, rounds) == r * rounds
  {
    if r > 0 {
      EnoughIsProduct(r - 1, rounds);
    }
  }

  lemma {:induction false} EnoughSweepsDrain(
      list: seq<UserId>, offset: nat, k: nat, removable: set<UserId>, rounds: nat, m: nat)
    requires k > 0 && rounds >= Windows(|list|, k) + 1
    requires m >= Enough(Count(list, removable), rounds)
    ensures After(list, offset, k, removable, m).0 == Without(list, removable)
    decreases Count(list, removable)
  {
    if Count(list, removable) == 0 {
      SweepsOnlyRemove(list, offset, k, removable, m);
      var left := After(list, offset, k, removable, m).0;
      WithoutRemoves(left, removable);
    } else {
      var (mid, at) := After(list, offset, k, removable, rounds);
      RoundRemoves(list, offset, k, removable, rounds);
      SweepsOnlyRemove(list, offset, k, removable, rounds);
      EnoughGrows(Count(mid, removable), Count(list, removable), rounds);
      AfterJoins(list, offset, k, removable, rounds, m - rounds);
      WindowsMonotone(|mid|, |list|, k);
      EnoughSweepsDrain(mid, at, k, removable, rounds, m - rounds);
    }
  }

  /**
   * With no new arrivals, repeated sweeps leave exactly the retained jobs, in their order,
   * from any offset and however many retained jobs surround the removable ones.
   */
  lemma SweepsDrain(list: seq<UserId>, offset: nat, k: nat, removable: set<UserId>, m: nat)
    requires k > 0 && m >= Count(list, removable) * (Windows(|list|, k) + 1)
    ensures After(list, offset, k, removable, m).0 == Without(list, removable)
  {
    var rounds := Windows(|list|, k) + 1;
    EnoughIsProduct(Count(list, removable), rounds);
    EnoughSweepsDrain(list, offset, k, removable, rounds, m);
  }

  // ---------- membership, for the code that sweeps ----------

  predicate Distinct(list: seq<UserId>) {
    forall i, j :: 0 <= i < j < |list| ==> list[i] != list[j]
  }

  lemma {:induction false} WithoutMembers(list: seq<UserId>, removable: set<UserId>, u: UserId)
    ensures u in Without(list, removable) <==> u in list && u !in removable
    decreases |list|
  {
    if list != [] {
      WithoutMembers(list[1..], removable, u);
    }
  }

  /** A distinct list loses exactly the removable entries of its window. */
  lemma SweepMembers(list: seq<UserId>, offset: nat, k: nat, removable: set<UserId>, u: UserId)
    requires k > 0 && list != [] && Distinct(list)
    ensures u in Sweep(list, offset, k, removable).0
       <==> u in list && !(u in Window(list, offset, k) && u in removable)
  {
    var start := offset % |list|;
    var end := WindowEnd(start, k, |list|);
    var a, b, c := list[..start], list[start..end], list[end..];
    assert list == a + b + c;
    WithoutMembers(b, removable, u);
    if u in b {
      var i :| 0 <= i < |b| && b[i] == u;
      assert list[start + i] == u;
      forall j | 0 <= j < |a| ensures a[j] != u {
        assert list[j] == a[j];
      }
      forall j | 0 <= j < |c| ensures c[j] != u {
        assert list[end + j] == c[j];
      }
    }
  }

  lemma {:induction false} WithoutDistinct(list: seq<UserId>, removable: set<UserId>)
    requires Distinct(list)
    ensures Distinct(Without(list, removable))
    decreases |list|
  {
    if list != [] {
      WithoutDistinct(list[1..], removable);
      WithoutMembers(list[1..], removable, list[0]);
      assert forall j :: 0 <= j < |list[1..]| ==> list[1..][j] == list[j + 1];
    }
  }

  /** A sweep leaves a list without repetition. */
  lemma SweepDistinct(list: seq<UserId>, offset: nat, k: nat, removable: set<UserId>)
    requires k > 0 && Distinct(list)
    ensures Distinct(Sweep(list, offset, k, removable).0)
  {
    if list != [] {
      var start := offset % |list|;
      var end := WindowEnd(start, k, |list|);
      var a, b, c := list[..start], list[start..end], list[end..];
      var kept := Without(b, removable);
      WithoutDistinct(b, removable);
      forall u | u in kept ensures u in b && u !in a && u !in c {
        WithoutMembers(b, removable, u);
        assert u in b;
      }
      assert forall u :: u in a ==> u !in c;
      JoinDistinct(a, kept);
      JoinDistinct(a + kept, c);
    }
  }

  lemma JoinDistinct(a: seq<UserId>, b: seq<UserId>)
    requires Distinct(a) && Distinct(b) && forall u :: u in a ==> u !in b
    ensures Distinct(a + b)
  {
    forall i, j | 0 <= i < j < |a + b| ensures (a + b)[i] != (a + b)[j] {
      if i < |a| && |a| <= j {
        assert a[i] in a && b[j - |a|] in b;
      }
    }
  }

  lemma {:induction false} SameWithout(list: seq<UserId>, p: set<UserId>, q: set<UserId>)
    requires forall u :: u in list ==> (u in p <==> u in q)
    ensures Without(list, p) == Without(list, q) && Count(list, p) == Count(list, q)
    decreases |list|
  {
    if list != [] {
      SameWithout(list[1..], p, q);
    }
  }

  /** A sweep only asks which of the listed jobs are removable. */
  lemma SameSweep(list: seq<UserId>, offset: nat, k: nat, p: set<UserId>, q: set<UserId>)
    requires k > 0 && forall u :: u in list ==> (u in p <==> u in q)
    ensures Sweep(list, offset, k, p) == Sweep(list, offset, k, q)
  {
    if list != [] {
      SameWithout(Window(list, offset, k), p, q);
    }
  }
}
