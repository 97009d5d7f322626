// The text of one reservations-hash value: who writes it, who reads it, and how they agree.
module LedgerCodec {
  import opened Types
  import opened SaleScripts

  const MAX_SAFE_INTEGER := 9007199254740991

  /** From here on Lua's `..` writes a number in exponent form (its format is `%.14g`). */
  const LUA_EXPONENT_FROM := 100_000_000_000_000

  // ---------- text ----------

  predicate IsDigit(c: char) {
    '0' <= c <= '9'
  }

  predicate AllDigits(t: string) {
    forall c :: c in t ==> IsDigit(c)
  }

  function Value(t: string): nat
    requires AllDigits(t)
  {
    if t == [] then 0 else
    var last := t[|t| - 1];
    assert last in t;
    10 * Value(t[..|t| - 1]) + (last as int - '0' as int)
  }

  function Decimal(n: nat): string {
    if n < 10 then ['0' + n as char] else Decimal(n / 10) + ['0' + (n % 10) as char]
  }

  lemma {:induction false} DecimalReadsBack(n: nat)
    ensures Decimal(n) != "" && AllDigits(Decimal(n)) && Value(Decimal(n)) == n
  {
    if n >= 10 {
      DecimalReadsBack(n / 10);
      assert Decimal(n)[..|Decimal(n)| - 1] == Decimal(n / 10);
    }
  }

  /** `indexOf(':')`, and `string.find(v, ':')` in the scripts. */
  function FirstColon(v: string): (k: Option<nat>)
    ensures k.None? <==> ':' !in v
    ensures k.Some? ==> k.value < |v| && v[k.value] == ':' && ':' !in v[..k.value]
  {
    if v == [] then None
    else if v[0] == ':' then Some(0)
    else match FirstColon(v[1..])
      case None => None
      case Some(k) =>
        assert v[..k + 1] == [v[0]] + v[1..][..k];
        Some(k + 1)
  }

  /** `lastIndexOf(':')`. */
  function LastColon(v: string): (k: Option<nat>)
    ensures k.None? <==> ':' !in v
    ensures k.Some? ==> k.value < |v| && v[k.value] == ':' && ':' !in v[k.value + 1..]
  {
    var n := |v|;
    if n == 0 then None
    else if v[n - 1] == ':' then Some(n - 1)
    else
      assert v == v[..n - 1] + [v[n - 1]];
      match LastColon(v[..n - 1])
      case None => None
      case Some(k) =>
        assert v[k + 1..] == v[..n - 1][k + 1..] + [v[n - 1]];
        Some(k)
  }

  predicate IsHex(c: char) {
    IsDigit(c) || 'a' <= c <= 'f' || 'A' <= c <= 'F'
  }

  predicate IsDash(i: int) {
    i == 8 || i == 13 || i == 18 || i == 23
  }

  /** A UUID of RFC 9562: a version and a variant digit, or all zeros, or all `f`. */
  predicate IsUuid(s: string) {
    && |s| == 36
    && (forall i :: 0 <= i < 36 ==> if IsDash(i) then s[i] == '-' else IsHex(s[i]))
    && (|| ('1' <= s[14] <= '8' && s[19] in "89abAB")
        || (forall i :: 0 <= i < 36 && !IsDash(i) ==> s[i] == '0')
        || (forall i :: 0 <= i < 36 && !IsDash(i) ==> s[i] == 'f' || s[i] == 'F'))
  }

  lemma UuidHasNoColon(s: string)
    requires IsUuid(s)
    ensures ':' !in s
  {
    assert forall i :: 0 <= i < 36 ==> if IsDash(i) then s[i] == '-' else IsHex(s[i]);
  }

  // ---------- readers ----------

  /** The identity the scripts compare: the text before the first colon. */
  function LuaId(v: string): ReservationId {
    match FirstColon(v)
    case None => v
    case Some(k) => v[..k]
  }

  /** `parseReservationEntry`; a value it refuses is `Garbled`. */
  function Decode(v: string): Entry {
    var separator := FirstColon(v);
    if separator.Some? && separator != LastColon(v) then Garbled(LuaId(v)) else
    var id := if separator.None? then v else v[..separator.value];
    if !IsUuid(id) then Garbled(LuaId(v))
    else if separator.None? then Bare(id)
    else
      var text := v[separator.value + 1..];
      if text == "" || !AllDigits(text) || Value(text) > MAX_SAFE_INTEGER then Garbled(LuaId(v))
      else Timed(id, Value(text))
  }

  /** Every reader sees the identity the scripts compare. */
  lemma DecodedIdIsLuaId(v: string)
    ensures Decode(v).id == LuaId(v)
  {
  }

  /**
   * `number` is JavaScript's `Number` followed by the safe-integer test. Only its value on
   * digit strings and on the empty string matters here.
   */
  ghost predicate IsJsNumber(number: string -> Option<int>) {
    && (forall t: string :: t != "" && AllDigits(t) ==>
          number(t) == if Value(t) <= MAX_SAFE_INTEGER then Some(Value(t)) else None)
    && number("") == Some(0)
  }

  datatype Audited = Audited(id: ReservationId, at: int)

  /** The auditor's reader of one value; `None` is its refusal. */
  function AuditParse(v: string, number: string -> Option<int>): Option<Audited> {
    match LastColon(v)
    case None => None
    case Some(split) =>
      if split < 1 then None else
      match number(v[split + 1..])
      case None => None
      case Some(at) => Some(Audited(v[..split], at))
  }

  /** A value with one colon is cut at it from either end. */
  lemma OneColon(id: string, text: string)
    requires ':' !in id && ':' !in text
    ensures FirstColon(id + ":" + text) == LastColon(id + ":" + text) == Some(|id|)
    ensures (id + ":" + text)[..|id|] == id && (id + ":" + text)[|id| + 1..] == text
  {
    var v := id + ":" + text;
    assert v[..|id|] == id && v[|id| + 1..] == text;
    ColonAt(v, |id|);
  }

  lemma ColonAt(v: string, k: nat)
    requires k < |v| && v[k] == ':' && ':' !in v[..k] && ':' !in v[k + 1..]
    ensures FirstColon(v) == LastColon(v) == Some(k)
  {
    var first, last := FirstColon(v).value, LastColon(v).value;
    assert forall i :: 0 <= i < k ==> v[i] == v[..k][i];
    assert forall i :: k < i < |v| ==> v[i] == v[k + 1..][i - k - 1];
    assert forall i :: 0 <= i < first ==> v[i] == v[..first][i];
    assert forall i :: last < i < |v| ==> v[i] == v[last + 1..][i - last - 1];
  }

  /** What the store reads as a time stamped entry, exactly. */
  lemma TimedIff(v: string, id: ReservationId, at: nat)
    ensures Decode(v) == Timed(id, at)
       <==> exists text: string :: v == id + ":" + text && IsUuid(id) && text != "" && AllDigits(text)
                                   && Value(text) == at <= MAX_SAFE_INTEGER
  {
    if Decode(v) == Timed(id, at) {
      var k := FirstColon(v).value;
      assert v == id + ":" + v[k + 1..];
    }
    forall text: string | v == id + ":" + text && IsUuid(id) && text != "" && AllDigits(text)
                          && Value(text) == at <= MAX_SAFE_INTEGER
      ensures Decode(v) == Timed(id, at)
    {
      UuidHasNoColon(id);
      OneColon(id, text);
    }
  }

  /** The auditor reads every stamped entry alike, and refuses every bare one. */
  lemma AuditAgrees(v: string, number: string -> Option<int>)
    requires IsJsNumber(number)
    ensures Decode(v).Timed? ==> AuditParse(v, number) == Some(Audited(Decode(v).id, Decode(v).at))
    ensures Decode(v).Bare? ==> AuditParse(v, number).None?
  {
  }

  /** The auditor takes more than the store does; this is exactly what the store takes of it. */
  lemma StoreTakesIff(v: string, number: string -> Option<int>)
    requires IsJsNumber(number) && AuditParse(v, number).Some?
    ensures var (id, text) := AtLastColon(v);
            Decode(v).Timed? <==> IsUuid(id) && text != "" && AllDigits(text)
  {
    var (id, text) := AtLastColon(v);
    if IsUuid(id) {
      UuidHasNoColon(id);
      ColonAt(v, |id|);
    }
  }

  function AtLastColon(v: string): (string, string)
    requires ':' in v
  {
    var split := LastColon(v).value;
    (v[..split], v[split + 1..])
  }

  // ---------- writers ----------

  /** `tostring(n)` in the scripts; `exponent` stands for the exponent form of large numbers. */
  function LuaNumber(n: nat, exponent: nat -> string): string {
    if n < LUA_EXPONENT_FROM then Decimal(n) else exponent(n)
  }

  ghost predicate IsExponentForm(exponent: nat -> string) {
    forall n :: n >= LUA_EXPONENT_FROM ==> 'e' in exponent(n)
  }

  /** What purchase.lua writes reads back exactly for UUIDs and times before the exponent form. */
  lemma PurchaseValueReadsBackIff(id: string, at: nat, exponent: nat -> string)
    requires IsExponentForm(exponent)
    ensures Decode(id + ":" + LuaNumber(at, exponent)) == Timed(id, at) <==> IsUuid(id) && at < 100000000000000
  {
    ValueReadsBackIff(id, LuaNumber(at, exponent), at);
    DecimalReadsBack(at);
  }

  /** What compare-restore writes reads back exactly for UUIDs and safe integers. */
  lemma RestoreValueReadsBackIff(id: string, at: nat)
    ensures Decode(id + ":" + Decimal(at)) == Timed(id, at) <==> IsUuid(id) && at <= 9007199254740991
  {
    ValueReadsBackIff(id, Decimal(at), at);
    DecimalReadsBack(at);
  }

  lemma ValueReadsBackIff(id: string, text: string, at: nat)
    ensures Decode(id + ":" + text) == Timed(id, at)
       <==> IsUuid(id) && text != "" && AllDigits(text) && Value(text) == at <= MAX_SAFE_INTEGER
  {
    var v := id + ":" + text;
    TimedIff(v, id, at);
    forall other: string | v == id + ":" + other ensures other == text {
      assert v[|id| + 1..] == other && v[|id| + 1..] == text;
    }
  }

  // ---------- the scripts on text refine the scripts on parsed entries ----------

  /** The Redis keys as stored: hash values are text. */
  datatype Stored = Stored(
    config: Option<Config>, stock: Option<int>, buyers: set<UserId>, ledger: map<UserId, string>)

  /** The parsed keys, as a reader with this decoder sees them. */
  function ViewBy(s: Stored, decode: string -> Entry): Redis {
    Redis(s.config, s.stock, s.buyers, map u | u in s.ledger :: decode(s.ledger[u]))
  }

  function View(s: Stored): Redis {
    ViewBy(s, Decode)
  }

  /** `value` is the text the script composes for the reservations hash. */
  function StoredPurchase(s: Stored, user: UserId, id: ReservationId, now: nat, value: string)
    : (PurchaseReply, Stored)
  {
    if s.config.None? then (PurchaseReply(NotInitialized, -1, now, None), s) else
    var c := s.config.value;
    var read := if s.stock.Some? then s.stock.value else 0;
    var stock := if read < 0 then 0 else read;
    if now < c.startsAtMs then (PurchaseReply(SaleNotStarted, stock, now, None), s)
    else if now >= c.endsAtMs then (PurchaseReply(SaleEnded, stock, now, None), s)
    else if user in s.buyers || user in s.ledger then
      (PurchaseReply(AlreadyPurchased, stock, now, None), s.(buyers := s.buyers + {user}))
    else if stock <= 0 then (PurchaseReply(SoldOut, 0, now, None), s)
    else
      (PurchaseReply(Confirmed, stock - 1, now, Some(id)),
       s.(stock := Some(stock - 1), buyers := s.buyers + {user}, ledger := s.ledger[user := value]))
  }

  function StoredCompensate(s: Stored, user: UserId, id: ReservationId): (CompensateCode, Stored) {
    if user !in s.ledger || LuaId(s.ledger[user]) != id then (Noop, s) else
    var cleared := s.(ledger := s.ledger - {user}, buyers := s.buyers - {user});
    var stock := if s.stock.Some? then s.stock.value else 0;
    if user !in s.buyers then (Noop, cleared)
    else if s.config.Some? && stock >= s.config.value.total then (ReleasedCapped, cleared)
    else (Released, cleared.(stock := Some(stock + 1)))
  }

  function StoredCompareRestore(s: Stored, p: Payload, candidate: string): (RestoreCode, Stored) {
    if p.user !in s.ledger then
      (Restored, s.(ledger := s.ledger[p.user := candidate], buyers := s.buyers + {p.user}))
    else if LuaId(s.ledger[p.user]) == p.id then (AlreadyMatched, s.(buyers := s.buyers + {p.user}))
    else (Conflict, s)
  }

  /** What a write and a removal look like to any reader. */
  lemma ViewOfChange(s: Stored, user: UserId, value: string, decode: string -> Entry)
    ensures ViewBy(s.(ledger := s.ledger[user := value]), decode).ledger
         == ViewBy(s, decode).ledger[user := decode(value)]
    ensures ViewBy(s.(ledger := s.ledger - {user}), decode).ledger == ViewBy(s, decode).ledger - {user}
  {
  }

  lemma PurchaseSeenBy(s: Stored, user: UserId, id: ReservationId, now: nat, value: string, decode: string -> Entry)
    requires decode(value) == Timed(id, now)
    ensures var (reply, after) := StoredPurchase(s, user, id, now, value);
            (reply, ViewBy(after, decode)) == Purchase(ViewBy(s, decode), user, id, now)
  {
    ViewOfChange(s, user, value, decode);
  }

  lemma CompensateSeenBy(s: Stored, user: UserId, id: ReservationId, decode: string -> Entry)
    requires user in s.ledger ==> decode(s.ledger[user]).id == LuaId(s.ledger[user])
    ensures var (code, after) := StoredCompensate(s, user, id);
            (code, ViewBy(after, decode)) == Compensate(ViewBy(s, decode), user, id)
  {
    ViewOfChange(s, user, "", decode);
  }

  lemma CompareRestoreSeenBy(s: Stored, p: Payload, candidate: string, decode: string -> Entry)
    requires p.user in s.ledger ==> decode(s.ledger[p.user]).id == LuaId(s.ledger[p.user])
    requires decode(candidate) == Timed(p.id, p.at)
    ensures var (code, after) := StoredCompareRestore(s, p, candidate);
            (code, ViewBy(after, decode)) == CompareRestore(ViewBy(s, decode), p)
  {
    ViewOfChange(s, p.user, candidate, decode);
  }

  lemma PurchaseRefinesEntries(s: Stored, user: UserId, id: ReservationId, now: nat, exponent: nat -> string)
    requires IsUuid(id) && now < LUA_EXPONENT_FROM && IsExponentForm(exponent)
    ensures var (reply, after) := StoredPurchase(s, user, id, now, id + ":" + LuaNumber(now, exponent));
            (reply, View(after)) == Purchase(View(s), user, id, now)
  {
    PurchaseValueReadsBackIff(id, now, exponent);
    PurchaseSeenBy(s, user, id, now, id + ":" + LuaNumber(now, exponent), Decode);
  }

  /** No hypothesis on the stored text: the scripts compare what every reader decodes. */
  lemma CompensateRefinesEntries(s: Stored, user: UserId, id: ReservationId)
    ensures var (code, after) := StoredCompensate(s, user, id);
            (code, View(after)) == Compensate(View(s), user, id)
  {
    if user in s.ledger {
      DecodedIdIsLuaId(s.ledger[user]);
    }
    CompensateSeenBy(s, user, id, Decode);
  }

  lemma CompareRestoreRefinesEntries(s: Stored, p: Payload)
    requires IsUuid(p.id) && p.at <= MAX_SAFE_INTEGER
    ensures var (code, after) := StoredCompareRestore(s, p, p.id + ":" + Decimal(p.at));
            (code, View(after)) == CompareRestore(View(s), p)
  {
    RestoreValueReadsBackIff(p.id, p.at);
    if p.user in s.ledger {
      DecodedIdIsLuaId(s.ledger[p.user]);
    }
    CompareRestoreSeenBy(s, p, p.id + ":" + Decimal(p.at), Decode);
  }

  // ---------- the readers, value by value ----------

  /** A bare value is a UUID and nothing else. */
  lemma BareIff(v: string, id: ReservationId)
    ensures Decode(v) == Bare(id) <==> v == id && IsUuid(v)
  {
    if IsUuid(v) {
      UuidHasNoColon(v);
    }
  }

  /** What the auditor accepts, exactly: something before the last colon, and a number after it. */
  lemma AuditTakesIff(v: string, number: string -> Option<int>, id: string, at: int)
    ensures AuditParse(v, number) == Some(Audited(id, at)) <==>
              exists text: string :: v == id + ":" + text && ':' !in text && id != "" && number(text) == Some(at)
  {
    if AuditParse(v, number) == Some(Audited(id, at)) {
      var split := LastColon(v).value;
      assert v == id + ":" + v[split + 1..];
    }
    forall text: string | v == id + ":" + text && ':' !in text && id != "" && number(text) == Some(at)
      ensures AuditParse(v, number) == Some(Audited(id, at))
    {
      LastColonAt(v, |id|);
      assert v[..|id|] == id && v[|id| + 1..] == text;
    }
  }

  lemma LastColonAt(v: string, k: nat)
    requires k < |v| && v[k] == ':' && ':' !in v[k + 1..]
    ensures LastColon(v) == Some(k)
  {
    var last := LastColon(v).value;
    assert forall i :: k < i < |v| ==> v[i] == v[k + 1..][i - k - 1];
    assert forall i :: last < i < |v| ==> v[i] == v[last + 1..][i - last - 1];
  }

  predicate HexGroup(t: string, n: nat) {
    |t| == n && forall c :: c in t ==> '0' <= c <= '9' || 'a' <= c <= 'f' || 'A' <= c <= 'F'
  }

  /** A UUID in its five groups. */
  ghost predicate InGroups(s: string, a: string, b: string, c: string, d: string, e: string) {
    && s == a + "-" + b + "-" + c + "-" + d + "-" + e
    && HexGroup(a, 8) && HexGroup(b, 4) && HexGroup(c, 4) && HexGroup(d, 4) && HexGroup(e, 12)
  }

  lemma GroupsAt(s: string, a: string, b: string, c: string, d: string, e: string)
    requires InGroups(s, a, b, c, d, e)
    ensures |s| == 36
    ensures forall i :: 0 <= i < 36 ==> if i in {8, 13, 18, 23} then s[i] == '-' else IsHex(s[i])
    ensures forall i :: 0 <= i < 36 && i !in {8, 13, 18, 23} ==> s[i] in a + b + c + d + e
    ensures s[14] == c[0] && s[19] == d[0]
  {
    var all := a + b + c + d + e;
    forall i | 0 <= i < 36
      ensures if i in {8, 13, 18, 23} then s[i] == '-' else IsHex(s[i]) && s[i] in all
    {
      if i < 8 {
        assert s[i] == a[i] == all[i] && a[i] in a;
      } else if 8 < i < 13 {
        assert s[i] == b[i - 9] == all[i - 1] && b[i - 9] in b;
      } else if 13 < i < 18 {
        assert s[i] == c[i - 14] == all[i - 2] && c[i - 14] in c;
      } else if 18 < i < 23 {
        assert s[i] == d[i - 19] == all[i - 3] && d[i - 19] in d;
      } else if 23 < i {
        assert s[i] == e[i - 24] == all[i - 4] && e[i - 24] in e;
      }
    }
  }

  lemma GroupsCover(s: string, a: string, b: string, c: string, d: string, e: string)
    requires InGroups(s, a, b, c, d, e)
    ensures forall x :: x in a + b + c + d + e ==> exists i :: 0 <= i < 36 && i !in {8, 13, 18, 23} && s[i] == x
  {
    forall x | x in a + b + c + d + e ensures exists i :: 0 <= i < 36 && i !in {8, 13, 18, 23} && s[i] == x {
      var k :| 0 <= k < 32 && (a + b + c + d + e)[k] == x;
      var at := if k < 8 then k else if k < 12 then k + 1 else if k < 16 then k + 2
                else if k < 20 then k + 3 else k + 4;
      assert s[at] == x;
    }
  }

  /** The pattern: a version from 1 to 8 with the RFC's variant, the nil UUID, or the max UUID. */
  lemma UuidGroupsIff(s: string, a: string, b: string, c: string, d: string, e: string)
    requires InGroups(s, a, b, c, d, e)
    ensures IsUuid(s) <==>
              || (c[0] in "12345678" && d[0] in "89abAB")
              || (forall x :: x in a + b + c + d + e ==> x == '0')
              || (forall x :: x in a + b + c + d + e ==> x == 'f' || x == 'F')
  {
    GroupsAt(s, a, b, c, d, e);
    GroupsCover(s, a, b, c, d, e);
  }

  /** Every UUID falls into its five groups. */
  lemma UuidInGroups(s: string)
    requires IsUuid(s)
    ensures InGroups(s, s[..8], s[9..13], s[14..18], s[19..23], s[24..])
  {
    assert s == s[..8] + "-" + s[9..13] + "-" + s[14..18] + "-" + s[19..23] + "-" + s[24..];
  }
}
