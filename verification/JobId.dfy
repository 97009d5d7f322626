// The queue's job id: one per user of a sale.
module JobId {

  /** `buildOrdersJobId`, once its two assertions have passed. */
  function BuildOrdersJobId(saleId: string, userId: string): string {
    saleId + "-" + userId
  }

  /** `long` continues `short` over a dash, and the users make up the difference. */
  ghost predicate Straddles(short: string, shortUser: string, long: string, longUser: string) {
    exists middle :: long == short + "-" + middle && shortUser == middle + "-" + longUser
  }

  lemma ShorterSaleStraddles(s: string, u: string, t: string, v: string)
    requires BuildOrdersJobId(s, u) == BuildOrdersJobId(t, v) && |s| < |t|
    ensures Straddles(s, u, t, v)
  {
    var job := BuildOrdersJobId(s, u);
    var middle := t[|s| + 1..];
    assert t == job[..|t|] && job[..|t|][..|s|] == job[..|s|] == s;
    assert t[|s|] == job[|s|] == '-';
    assert t == s + "-" + middle;
    assert u == job[|s| + 1..] && v == job[|t| + 1..];
    assert job[|t|] == '-';
    assert u == middle + "-" + v;
  }

  lemma StraddlersCollide(s: string, u: string, t: string, v: string)
    requires Straddles(s, u, t, v)
    ensures BuildOrdersJobId(s, u) == BuildOrdersJobId(t, v)
  {
    var middle :| t == s + "-" + middle && u == middle + "-" + v;
    assert s + "-" + (middle + "-" + v) == (s + "-" + middle) + "-" + v;
  }

  /**
   * Two job ids are equal for the same sale and user, or when one sale id continues the
   * other over a dash. Within one sale the id therefore identifies the user.
   */
  lemma SameJobIff(s: string, u: string, t: string, v: string)
    ensures BuildOrdersJobId(s, u) == BuildOrdersJobId(t, v)
       <==> (s == t && u == v) || Straddles(s, u, t, v) || Straddles(t, v, s, u)
  {
    var a, b := BuildOrdersJobId(s, u), BuildOrdersJobId(t, v);
    if a == b {
      if |s| < |t| {
        ShorterSaleStraddles(s, u, t, v);
      } else if |t| < |s| {
        ShorterSaleStraddles(t, v, s, u);
      } else {
        assert s == a[..|s|] && t == b[..|t|];
        assert u == a[|s| + 1..] && v == b[|t| + 1..];
      }
    }
    if Straddles(s, u, t, v) {
      StraddlersCollide(s, u, t, v);
    }
    if Straddles(t, v, s, u) {
      StraddlersCollide(t, v, s, u);
    }
  }

  lemma OneJobPerUser(saleId: string, u: string, v: string)
    ensures BuildOrdersJobId(saleId, u) == BuildOrdersJobId(saleId, v) <==> u == v
  {
    SameJobIff(saleId, u, saleId, v);
  }
}
