/** The market cache migration (20260729_0030_bounded_market_cache.py): one bundle per
    exchange, the downgrade meant to undo it, and the hourly downsampling of snapshots. */
module MarketCache {
  import opened Models
  import opened Sorting
  import opened Text

  /** One cached opportunity as JSON: its text and the two members the migration reads. */
  datatype Payload = Payload(baseAsset: string, observedAt: Time, text: string)

  datatype Row = Row(key: string, exchange: string, baseAsset: string, observedAt: Time, payload: Payload, updatedAt: Time)

  datatype Bundle = Bundle(exchange: string, observedAt: Time, payload: seq<Payload>, updatedAt: Time)

  // ---------- upgrade: bundling ----------

  function OnExchange(e: string): Row -> bool { (r: Row) => r.exchange == e }

  function PayloadOf(): Row -> Payload { (r: Row) => r.payload }

  predicate AssetLeq(a: Payload, b: Payload) { StringLeq(a.baseAsset, b.baseAsset) }

  function MaxOf(times: seq<Time>): (most: Time)
    requires times != []
    ensures exists i :: 0 <= i < |times| && times[i] == most
    ensures forall i :: 0 <= i < |times| ==> times[i] <= most
  {
    if |times| == 1 then times[0] else MaxReal(times[0], MaxOf(times[1..]))
  }

  function UpdatedAtOf(): Row -> Time { (r: Row) => r.updatedAt }

  function ObservedAtOf(): Row -> Time { (r: Row) => r.observedAt }

  function BundleOf(rows: seq<Row>, e: string): Bundle
    requires Filter(OnExchange(e), rows) != []
  {
    var group := Filter(OnExchange(e), rows);
    Bundle(e, MaxOf(Map(ObservedAtOf(), group)), Sort(AssetLeq, Map(PayloadOf(), group)), MaxOf(Map(UpdatedAtOf(), group)))
  }

  /** The exchanges that occur, each once. */
  function Exchanges(rows: seq<Row>): (es: seq<string>)
    ensures forall e :: e in es <==> exists r :: r in rows && r.exchange == e
    ensures forall i, j :: 0 <= i < j < |es| ==> es[i] != es[j]
  {
    if rows == [] then []
    else
      var n := |rows| - 1;
      var before, e := Exchanges(rows[..n]), rows[n].exchange;
      assert rows == rows[..n] + [rows[n]];
      if e in before then before else before + [e]
  }

  function BundleEach(rows: seq<Row>, es: seq<string>): seq<Bundle>
    requires forall e :: e in es ==> Filter(OnExchange(e), rows) != []
  {
    if es == [] then [] else [BundleOf(rows, es[0])] + BundleEach(rows, es[1..])
  }

  lemma GroupsNonEmpty(rows: seq<Row>)
    ensures forall e :: e in Exchanges(rows) ==> Filter(OnExchange(e), rows) != []
  {
    forall e | e in Exchanges(rows) ensures Filter(OnExchange(e), rows) != [] {
      var r :| r in rows && r.exchange == e;
      FilterMembers(OnExchange(e), rows);
      assert r in Filter(OnExchange(e), rows);
    }
  }

  function Bundled(rows: seq<Row>): seq<Bundle> {
    GroupsNonEmpty(rows);
    BundleEach(rows, Exchanges(rows))
  }

  // ---------- downgrade: the key expression ----------

  datatype SqlType = Text | Json

  /** What the downgrade selects as key is built from these; `Get` is `->>`. */
  datatype Expr =
    | Exchange
    | Literal(text: string)
    | Item
    | Concat(left: Expr, right: Expr)
    | Get(of: Expr, member: Expr)

  /** PostgreSQL finds `||` when one side is text, and `->>` only for JSON on its left. */
  function TypeOf(x: Expr): Option<SqlType> {
    match x
    case Exchange => Some(Text)
    case Literal(_) => Some(Text)
    case Item => Some(Json)
    case Concat(l, r) =>
      if TypeOf(l).None? || TypeOf(r).None? then None
      else if TypeOf(l) == Some(Text) || TypeOf(r) == Some(Text) then Some(Text)
      else None
    case Get(of, member) =>
      if TypeOf(of) == Some(Json) && TypeOf(member) == Some(Text) then Some(Text) else None
  }

  /** The text an expression stands for in one row; None is NULL. Of the members only the
      base asset is part of the model. */
  function Eval(x: Expr, exchange: string, item: Payload): Option<string> {
    match x
    case Exchange => Some(exchange)
    case Literal(text) => Some(text)
    case Item => Some(item.text)
    case Concat(l, r) =>
      var a, b := Eval(l, exchange, item), Eval(r, exchange, item);
      if a.Some? && b.Some? then Some(a.value + b.value) else None
    case Get(_, member) =>
      if Eval(member, exchange, item) == Some("base_asset") then Some(item.baseAsset) else None
  }

  datatype Operator = Bars | Arrow

  /** Operators of one precedence group to the left. */
  function LeftToRight(first: Expr, rest: seq<(Operator, Expr)>): Expr
    decreases |rest|
  {
    if rest == [] then first
    else
      LeftToRight(if rest[0].0 == Bars then Concat(first, rest[0].1) else Get(first, rest[0].1), rest[1..])
  }

  /** `exchange || ':' || item->>'base_asset'`: the two operators have one precedence. */
  function KeyAsWritten(): Expr {
    LeftToRight(Exchange, [(Bars, Literal(":")), (Bars, Item), (Arrow, Literal("base_asset"))])
  }

  /** `exchange || ':' || (item->>'base_asset')`. */
  function KeyParenthesised(): Expr {
    LeftToRight(Exchange, [(Bars, Literal(":")), (Bars, Get(Item, Literal("base_asset")))])
  }

  /** The key is the exchange, a colon and the base asset, in every row. */
  ghost predicate Exact(key: Expr) {
    TypeOf(key) == Some(Text)
    && forall exchange, item :: Eval(key, exchange, item) == Some(exchange + ":" + item.baseAsset)
  }

  // ---------- downgrade: expanding ----------

  function RowFrom(key: Expr, e: string, updatedAt: Time): Payload -> Row {
    (p: Payload) =>
      var k := Eval(key, e, p);
      Row(if k.Some? then k.value else "", e, p.baseAsset, p.observedAt, p, updatedAt)
  }

  function Expanded(key: Expr, bundles: seq<Bundle>): seq<Row> {
    if bundles == [] then []
    else Map(RowFrom(key, bundles[0].exchange, bundles[0].updatedAt), bundles[0].payload) + Expanded(key, bundles[1..])
  }

  /** The primary key of the expanded table. */
  ghost predicate KeysDiffer(rows: seq<Row>) {
    forall i, j :: 0 <= i < j < |rows| ==> rows[i].key != rows[j].key
  }

  /** The INSERT of the downgrade: None when the key has no operator for its operands,
      whatever the table holds, or when a key is NULL or occurs twice. */
  ghost function Downgraded(key: Expr, bundles: seq<Bundle>): Option<seq<Row>> {
    if TypeOf(key) != Some(Text) then None
    else if exists b, p :: b in bundles && p in b.payload && Eval(key, b.exchange, p).None? then None
    else if !KeysDiffer(Expanded(key, bundles)) then None
    else Some(Expanded(key, bundles))
  }

  /** A row's columns repeat what its payload says. */
  ghost predicate Coherent(r: Row) {
    r.key == r.exchange + ":" + r.baseAsset && r.payload.baseAsset == r.baseAsset && r.payload.observedAt == r.observedAt
  }

  /** The row with its exchange's latest update time. */
  function Freshened(rows: seq<Row>): Row -> Row {
    (r: Row) =>
      var group := Filter(OnExchange(r.exchange), rows);
      if group == [] then r else r.(updatedAt := MaxOf(Map(UpdatedAtOf(), group)))
  }

  function OnAny(es: seq<string>): Row -> bool { (r: Row) => r.exchange in es }

  lemma BundleExpands(key: Expr, rows: seq<Row>, e: string)
    requires Exact(key) && Filter(OnExchange(e), rows) != []
    requires forall r :: r in rows ==> Coherent(r)
    ensures var b := BundleOf(rows, e);
      multiset(Map(RowFrom(key, e, b.updatedAt), b.payload)) == multiset(Map(Freshened(rows), Filter(OnExchange(e), rows)))
  {
    var group, b := Filter(OnExchange(e), rows), BundleOf(rows, e);
    var payloads := Map(PayloadOf(), group);
    SortPermutes(AssetLeq, payloads);
    MapPermutes(RowFrom(key, e, b.updatedAt), b.payload, payloads);
    RowsComeBack(key, rows, e, payloads);
  }

  lemma RowsComeBack(key: Expr, rows: seq<Row>, e: string, payloads: seq<Payload>)
    requires Exact(key) && Filter(OnExchange(e), rows) != [] && payloads == Map(PayloadOf(), Filter(OnExchange(e), rows))
    requires forall r :: r in rows ==> Coherent(r)
    ensures Map(RowFrom(key, e, BundleOf(rows, e).updatedAt), payloads) == Map(Freshened(rows), Filter(OnExchange(e), rows))
  {
    var group := Filter(OnExchange(e), rows);
    FilterMembers(OnExchange(e), rows);
    var updatedAt := BundleOf(rows, e).updatedAt;
    forall i | 0 <= i < |group| ensures RowFrom(key, e, updatedAt)(payloads[i]) == Freshened(rows)(group[i]) {
      assert group[i] in group;
      RowComesBack(key, rows, group[i], updatedAt);
    }
    SameImages(RowFrom(key, e, updatedAt), payloads, Freshened(rows), group);
  }

  lemma RowComesBack(key: Expr, rows: seq<Row>, r: Row, updatedAt: Time)
    requires Exact(key) && r in rows && Coherent(r) && Filter(OnExchange(r.exchange), rows) != []
    requires updatedAt == MaxOf(Map(UpdatedAtOf(), Filter(OnExchange(r.exchange), rows)))
    ensures RowFrom(key, r.exchange, updatedAt)(r.payload) == Freshened(rows)(r)
  {
    assert Eval(key, r.exchange, r.payload) == Some(r.key);
  }

  lemma {:induction false} EachExpands(key: Expr, rows: seq<Row>, es: seq<string>)
    requires Exact(key)
    requires forall e :: e in es ==> Filter(OnExchange(e), rows) != []
    requires forall i, j :: 0 <= i < j < |es| ==> es[i] != es[j]
    requires forall r :: r in rows ==> Coherent(r)
    ensures multiset(Expanded(key, BundleEach(rows, es))) == multiset(Map(Freshened(rows), Filter(OnAny(es), rows)))
  {
    if es == [] {
      FilterNone(OnAny(es), rows);
    } else {
      EachExpands(key, rows, es[1..]);
      BundleExpands(key, rows, es[0]);
      ExpandHead(key, BundleOf(rows, es[0]), BundleEach(rows, es[1..]));
      OnHeadOrRest(es, rows);
      FilterSplits(Freshened(rows), OnAny(es), OnExchange(es[0]), OnAny(es[1..]), rows);
    }
  }

  lemma ExpandHead(key: Expr, b: Bundle, rest: seq<Bundle>)
    ensures multiset(Expanded(key, [b] + rest))
         == multiset(Map(RowFrom(key, b.exchange, b.updatedAt), b.payload)) + multiset(Expanded(key, rest))
  {
    assert ([b] + rest)[1..] == rest;
  }

  lemma OnHeadOrRest(es: seq<string>, rows: seq<Row>)
    requires es != [] && forall i, j :: 0 <= i < j < |es| ==> es[i] != es[j]
    ensures forall r :: r in rows ==>
      (OnAny(es)(r) <==> OnExchange(es[0])(r) || OnAny(es[1..])(r)) && !(OnExchange(es[0])(r) && OnAny(es[1..])(r))
  {
    assert es == [es[0]] + es[1..];
    assert es[0] !in es[1..];
  }

  /** With an exact key, downgrading after upgrading restores exactly the rows there were,
      each with its exchange's latest update time. */
  lemma BundleRoundTrip(key: Expr, rows: seq<Row>)
    requires Exact(key) && KeysDiffer(rows) && forall r :: r in rows ==> Coherent(r)
    ensures Restores(key, rows)
  {
    AllExpand(key, rows);
    KeysStay(rows, Expanded(key, Bundled(rows)));
  }

  lemma AllExpand(key: Expr, rows: seq<Row>)
    requires Exact(key) && forall r :: r in rows ==> Coherent(r)
    ensures multiset(Expanded(key, Bundled(rows))) == multiset(Map(Freshened(rows), rows))
  {
    GroupsNonEmpty(rows);
    EachExpands(key, rows, Exchanges(rows));
    FilterAll(OnAny(Exchanges(rows)), rows);
  }

  ghost predicate Restores(key: Expr, rows: seq<Row>) {
    var restored := Downgraded(key, Bundled(rows));
    restored.Some? && multiset(restored.value) == multiset(Map(Freshened(rows), rows))
  }

  lemma KeyStays(rows: seq<Row>, r: Row)
    ensures Freshened(rows)(r).key == r.key
  {
  }

  lemma KeysStay(rows: seq<Row>, expanded: seq<Row>)
    requires KeysDiffer(rows) && multiset(expanded) == multiset(Map(Freshened(rows), rows))
    ensures KeysDiffer(expanded)
  {
    var kept := Map(Freshened(rows), rows);
    forall i, j | 0 <= i < j < |expanded| ensures expanded[i].key != expanded[j].key {
      var k, m := TwoIndices(kept, expanded, i, j);
      KeyStays(rows, rows[k]);
      KeyStays(rows, rows[m]);
    }
  }

  /** One cached row, as the worker writes it. */
  function RowOf(exchange: string, item: Payload): Row {
    Row(exchange + ":" + item.baseAsset, exchange, item.baseAsset, item.observedAt, item, 0.0)
  }

  lemma OneBundle(exchange: string, item: Payload) returns (b: Bundle)
    ensures Bundled([RowOf(exchange, item)]) == [b] && b.exchange == exchange && b.payload == [item]
  {
    var r := RowOf(exchange, item);
    OneExchange(r);
    GroupsNonEmpty([r]);
    FilterAll(OnExchange(exchange), [r]);
    b := BundleOf([r], exchange);
    assert Map(PayloadOf(), [r]) == [item] && [item][1..] == [];
    assert Sort(AssetLeq, [item]) == Insert(AssetLeq, item, Sort(AssetLeq, []));
    assert [exchange][1..] == [];
    assert BundleEach([r], [exchange]) == [b] + BundleEach([r], []);
  }

  lemma OneExchange(r: Row)
    ensures Exchanges([r]) == [r.exchange]
  {
    assert [r][..0] == [] && Exchanges([]) == [];
  }

  lemma OneExpanded(key: Expr, b: Bundle, item: Payload)
    requires b.payload == [item]
    ensures Expanded(key, [b]) == [RowFrom(key, b.exchange, b.updatedAt)(item)]
  {
    assert [b][1..] == [];
  }

  lemma OneRow(key: Expr, exchange: string, item: Payload)
    requires Restores(key, [RowOf(exchange, item)])
    ensures Eval(key, exchange, item) == Some(exchange + ":" + item.baseAsset)
  {
    var r := RowOf(exchange, item);
    var b := OneBundle(exchange, item);
    OneExpanded(key, b, item);
    var kept := Map(Freshened([r]), [r]);
    assert kept == [kept[0]] && kept[0].key == r.key;
    var restored := Downgraded(key, [b]).value;
    assert restored[0] in multiset(kept);
    assert item in b.payload && b in [b];
  }

  /** The downgrade undoes the upgrade, for every table the worker can have written. */
  ghost predicate UndoesUpgrade(key: Expr) {
    forall rows :: KeysDiffer(rows) && (forall r :: r in rows ==> Coherent(r)) ==> Restores(key, rows)
  }

  /** It does exactly when its key is exact. */
  lemma RoundTripExactly(key: Expr)
    ensures UndoesUpgrade(key) <==> Exact(key)
  {
    if Exact(key) {
      forall rows | KeysDiffer(rows) && (forall r :: r in rows ==> Coherent(r)) ensures Restores(key, rows) {
        BundleRoundTrip(key, rows);
      }
    }
    if UndoesUpgrade(key) {
      assert KeysDiffer([]) && Restores(key, []);
      forall exchange, item ensures Eval(key, exchange, item) == Some(exchange + ":" + item.baseAsset) {
        OneRowRestored(key, exchange, item);
        OneRow(key, exchange, item);
      }
    }
  }

  lemma OneRowRestored(key: Expr, exchange: string, item: Payload)
    requires UndoesUpgrade(key)
    ensures Restores(key, [RowOf(exchange, item)])
  {
    assert KeysDiffer([RowOf(exchange, item)]);
  }

  /** As written, `->>` is applied to text, so the downgrade fails for every table, even an
      empty one; with parentheses it restores every table. */
  lemma DowngradeFailsAsWritten(bundles: seq<Bundle>)
    ensures Downgraded(KeyAsWritten(), bundles).None?
    ensures KeyAsWritten() == Get(Concat(Concat(Exchange, Literal(":")), Item), Literal("base_asset"))
    ensures Exact(KeyParenthesised())
  {
    var colon, base := Literal(":"), Literal("base_asset");
    var three := [(Bars, colon), (Bars, Item), (Arrow, base)];
    assert three[1..] == [(Bars, Item), (Arrow, base)] && three[1..][1..] == [(Arrow, base)];
    assert LeftToRight(Concat(Concat(Exchange, colon), Item), [(Arrow, base)])
        == Get(Concat(Concat(Exchange, colon), Item), base);
    var two := [(Bars, colon), (Bars, Get(Item, base))];
    assert two[1..] == [(Bars, Get(Item, base))];
    assert KeyParenthesised() == Concat(Concat(Exchange, colon), Get(Item, base));
    ParenthesisedIsExact();
  }

  lemma ParenthesisedIsExact()
    ensures Exact(Concat(Concat(Exchange, Literal(":")), Get(Item, Literal("base_asset"))))
  {
    var prefix, base := Concat(Exchange, Literal(":")), Get(Item, Literal("base_asset"));
    forall exchange, item ensures Eval(Concat(prefix, base), exchange, item) == Some(exchange + ":" + item.baseAsset) {
      assert Eval(prefix, exchange, item) == Some(exchange + ":");
      assert Eval(base, exchange, item) == Some(item.baseAsset);
    }
    assert TypeOf(prefix) == Some(Text) && TypeOf(base) == Some(Text);
  }

  /** What one bundle holds: the payloads of its exchange in asset order, and the latest
      of their two times. */
  ghost predicate Bundles(rows: seq<Row>, b: Bundle) {
    && (forall i, j :: 0 <= i < j < |b.payload| ==> StringLeq(b.payload[i].baseAsset, b.payload[j].baseAsset))
    && multiset(b.payload) == multiset(Map(PayloadOf(), Filter(OnExchange(b.exchange), rows)))
    && (forall r :: r in rows && r.exchange == b.exchange ==> r.observedAt <= b.observedAt && r.updatedAt <= b.updatedAt)
    && (exists r :: r in rows && r.exchange == b.exchange && r.observedAt == b.observedAt)
    && (exists r :: r in rows && r.exchange == b.exchange && r.updatedAt == b.updatedAt)
  }

  lemma AssetsAreOrdered()
    ensures TotalPreorder(AssetLeq)
  {
    forall a: Payload, b: Payload ensures AssetLeq(a, b) || AssetLeq(b, a) {
      StringLeqTotal(a.baseAsset, b.baseAsset);
    }
    forall a: Payload, b: Payload, c: Payload | AssetLeq(a, b) && AssetLeq(b, c) ensures AssetLeq(a, c) {
      StringLeqTransitive(a.baseAsset, b.baseAsset, c.baseAsset);
    }
  }

  lemma PayloadsInOrder(payloads: seq<Payload>)
    ensures var s := Sort(AssetLeq, payloads);
      && multiset(s) == multiset(payloads)
      && forall i, j :: 0 <= i < j < |s| ==> StringLeq(s[i].baseAsset, s[j].baseAsset)
  {
    AssetsAreOrdered();
    SortSorts(AssetLeq, payloads);
    SortPermutes(AssetLeq, payloads);
  }

  lemma BundleHolds(rows: seq<Row>, e: string)
    requires Filter(OnExchange(e), rows) != []
    ensures Bundles(rows, BundleOf(rows, e))
  {
    var group, b := Filter(OnExchange(e), rows), BundleOf(rows, e);
    var observed, updated := Map(ObservedAtOf(), group), Map(UpdatedAtOf(), group);
    PayloadsInOrder(Map(PayloadOf(), group));
    FilterMembers(OnExchange(e), rows);
    forall r | r in rows && r.exchange == e ensures r.observedAt <= b.observedAt && r.updatedAt <= b.updatedAt {
      assert r in group;
      var i :| 0 <= i < |group| && group[i] == r;
      assert observed[i] == r.observedAt && updated[i] == r.updatedAt;
    }
    var i :| 0 <= i < |observed| && observed[i] == b.observedAt;
    var j :| 0 <= j < |updated| && updated[j] == b.updatedAt;
    assert group[i] in rows && group[j] in rows;
  }

  /** The bundled table has one row per exchange that occurred, and each holds its
      exchange's payloads and latest times. */
  lemma {:induction false} BundledTable(rows: seq<Row>)
    ensures |Bundled(rows)| == |Exchanges(rows)|
    ensures forall i :: 0 <= i < |Bundled(rows)| ==>
      Bundled(rows)[i].exchange == Exchanges(rows)[i] && Bundles(rows, Bundled(rows)[i])
  {
    GroupsNonEmpty(rows);
    EachHolds(rows, Exchanges(rows));
  }

  lemma EachHolds(rows: seq<Row>, es: seq<string>)
    requires forall e :: e in es ==> Filter(OnExchange(e), rows) != []
    ensures |BundleEach(rows, es)| == |es|
    ensures forall i :: 0 <= i < |es| ==> BundleEach(rows, es)[i].exchange == es[i] && Bundles(rows, BundleEach(rows, es)[i])
  {
    EachLength(rows, es);
    forall i | 0 <= i < |es| ensures BundleEach(rows, es)[i].exchange == es[i] && Bundles(rows, BundleEach(rows, es)[i]) {
      EachIs(rows, es, i);
      BundleHolds(rows, es[i]);
    }
  }

  lemma {:induction false} EachLength(rows: seq<Row>, es: seq<string>)
    requires forall e :: e in es ==> Filter(OnExchange(e), rows) != []
    ensures |BundleEach(rows, es)| == |es|
  {
    if es != [] {
      EachLength(rows, es[1..]);
    }
  }

  lemma {:induction false} EachIs(rows: seq<Row>, es: seq<string>, i: int)
    requires 0 <= i < |es| && forall e :: e in es ==> Filter(OnExchange(e), rows) != []
    ensures |BundleEach(rows, es)| == |es| && BundleEach(rows, es)[i] == BundleOf(rows, es[i])
  {
    EachLength(rows, es);
    if i > 0 {
      EachIs(rows, es[1..], i - 1);
    }
  }

  // ---------- downsampling ----------

  datatype Snapshot = Snapshot(id: int, exchange: string, baseAsset: string, observedAt: Time, payload: string)

  function Hour(t: Time): int { (t / HOUR).Floor }

  predicate SameBucket(a: Snapshot, b: Snapshot) {
    a.exchange == b.exchange && a.baseAsset == b.baseAsset && Hour(a.observedAt) == Hour(b.observedAt)
  }

  /** `ORDER BY observed_at DESC, id DESC`, strictly. */
  predicate Precedes(a: Snapshot, b: Snapshot) {
    a.observedAt > b.observedAt || (a.observedAt == b.observedAt && a.id > b.id)
  }

  predicate PrecedesOrTies(a: Snapshot, b: Snapshot) { !Precedes(b, a) }

  function AheadOf(r: Snapshot): Snapshot -> bool { (s: Snapshot) => SameBucket(s, r) && Precedes(s, r) }

  function InBucketOf(r: Snapshot): Snapshot -> bool { (s: Snapshot) => SameBucket(s, r) }

  /** `row_number()` within the bucket. */
  function Position(rows: seq<Snapshot>, r: Snapshot): nat { 1 + Count(AheadOf(r), rows) }

  function FirstOf(rows: seq<Snapshot>): Snapshot -> bool { (r: Snapshot) => Position(rows, r) <= 1 }

  ghost predicate DistinctIds(rows: seq<Snapshot>) {
    forall a, b :: a in rows && b in rows && a.id == b.id ==> a == b
  }

  class SnapshotTable {
    var rows: seq<Snapshot>

    constructor (rows: seq<Snapshot>)
      ensures this.rows == rows
    {
      this.rows := rows;
    }

    /** The `DELETE ... WHERE position > 1`. */
    method Downsample()
      modifies this
      ensures rows == Filter(FirstOf(old(rows)), old(rows))
      ensures DistinctIds(old(rows)) ==> OnePerBucket(old(rows), rows)
    {
      if DistinctIds(rows) {
        KeepsGreatest(rows);
      }
      rows := Filter(FirstOf(rows), rows);
    }
  }

  /** One exchange and asset, within one hour of the clock. */
  ghost predicate SameHour(a: Snapshot, b: Snapshot) {
    a.exchange == b.exchange && a.baseAsset == b.baseAsset && exists h: int :: InHour(a, h) && InHour(b, h)
  }

  predicate InHour(s: Snapshot, h: int) { h as real * 3600.0 <= s.observedAt < (h as real + 1.0) * 3600.0 }

  predicate NotLater(s: Snapshot, k: Snapshot) {
    s.observedAt < k.observedAt || (s.observedAt == k.observedAt && s.id <= k.id)
  }

  /** Exactly one row of every exchange, asset and hour is left, and none of that hour is
      later. */
  ghost predicate OnePerBucket(before: seq<Snapshot>, after: seq<Snapshot>) {
    && (forall k :: k in after ==> k in before)
    && (forall a, b :: a in after && b in after && SameHour(a, b) ==> a == b)
    && (forall r :: r in before ==>
          exists k :: k in after && SameHour(k, r) && (forall s :: s in before && SameHour(s, r) ==> NotLater(s, k)))
  }

  lemma BucketsAreHours(a: Snapshot, b: Snapshot)
    ensures SameHour(a, b) <==> SameBucket(a, b)
  {
    HourIs(a, Hour(a.observedAt));
    HourIs(b, Hour(a.observedAt));
    if h: int :| InHour(a, h) && InHour(b, h) {
      HourIs(a, h);
      HourIs(b, h);
    }
  }

  lemma HourIs(s: Snapshot, h: int)
    ensures InHour(s, h) <==> Hour(s.observedAt) == h
  {
    assert h as real <= s.observedAt / HOUR < h as real + 1.0 <==> InHour(s, h);
  }

  lemma {:induction false} NoneAhead(rows: seq<Snapshot>, r: Snapshot)
    ensures Count(AheadOf(r), rows) == 0 <==> forall s :: s in rows ==> !AheadOf(r)(s)
  {
    if rows != [] {
      NoneAhead(rows[1..], r);
      assert rows == [rows[0]] + rows[1..];
    }
  }

  lemma KeepsGreatest(rows: seq<Snapshot>)
    requires DistinctIds(rows)
    ensures OnePerBucket(rows, Filter(FirstOf(rows), rows))
  {
    var after := Filter(FirstOf(rows), rows);
    FilterMembers(FirstOf(rows), rows);
    forall a, b ensures SameHour(a, b) <==> SameBucket(a, b) {
      BucketsAreHours(a, b);
    }
    forall a, b | a in after && b in after && SameHour(a, b) ensures a == b {
      NoneAhead(rows, a);
      NoneAhead(rows, b);
      assert !AheadOf(a)(b) && !AheadOf(b)(a);
    }
    forall r | r in rows
      ensures exists k :: k in after && SameHour(k, r) && (forall s :: s in rows && SameHour(s, r) ==> NotLater(s, k))
    {
      var k := GreatestInBucket(rows, r);
      NoneAhead(rows, k);
      assert k in after && SameHour(k, r);
      forall s | s in rows && SameHour(s, r) ensures NotLater(s, k) {
        assert PrecedesOrTies(k, s);
      }
    }
  }

  lemma GreatestInBucket(rows: seq<Snapshot>, r: Snapshot) returns (k: Snapshot)
    requires r in rows
    ensures k in rows && SameBucket(k, r)
    ensures forall s :: s in rows && SameBucket(s, r) ==> PrecedesOrTies(k, s)
  {
    var bucket := Filter(InBucketOf(r), rows);
    FilterMembers(InBucketOf(r), rows);
    assert r in bucket;
    assert TotalPreorder(PrecedesOrTies);
    SortHead(PrecedesOrTies, bucket);
    var i :| StableLeast(PrecedesOrTies, bucket, i);
    k := bucket[i];
    assert k in bucket;
    forall s | s in rows && SameBucket(s, r) ensures PrecedesOrTies(k, s) {
      assert s in bucket;
      var j :| 0 <= j < |bucket| && bucket[j] == s;
    }
  }

  /** Downsampling twice changes nothing more. */
  lemma DownsampleIdempotent(rows: seq<Snapshot>)
    ensures var once := Filter(FirstOf(rows), rows); Filter(FirstOf(once), once) == once
  {
    var once := Filter(FirstOf(rows), rows);
    FilterMembers(FirstOf(rows), rows);
    forall r | r in once ensures FirstOf(once)(r) {
      NoneAhead(rows, r);
      NoneAhead(once, r);
    }
    FilterAll(FirstOf(once), once);
  }
}
