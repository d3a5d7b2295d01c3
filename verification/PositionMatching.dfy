/** `_validate_paired_positions` (live_execution.py): the remote perpetual positions must
    be exactly the short legs of the local pairs. */
module PositionMatching {
  import opened Models
  import opened Sorting

  /** One row of `paired_perp_exposures`. */
  datatype LocalRow = LocalRow(symbol: string, quantity: real, leverage: int)

  datatype RemoteRow = RemoteRow(symbol: string, side: string, quantity: real, leverage: real, isolated: Option<bool>)

  datatype Verdict =
    | Accepted
    | LocalLeverageConflict
    | RemoteNotShort
    | RemoteLeverageConflict
    | PairConflict
    | RemoteUnmatched

  const SHORT := "short"

  predicate DecimalEqual(left: real, right: real) {
    -0.000000000000001 <= left - right <= 0.000000000000001
  }

  // ---------- what is accepted ----------

  function LocalQuantity(symbol: string): LocalRow -> real {
    (a: LocalRow) => if a.symbol == symbol then a.quantity else 0.0
  }

  function RemoteQuantity(symbol: string): RemoteRow -> real {
    (r: RemoteRow) => if r.symbol == symbol then r.quantity else 0.0
  }

  function RemoteWith(symbol: string): RemoteRow -> bool { (r: RemoteRow) => r.symbol == symbol }

  ghost predicate UniformLocal(local: seq<LocalRow>) {
    forall a, b :: a in local && b in local && a.symbol == b.symbol ==> a.leverage == b.leverage
  }

  ghost predicate UniformRemote(remote: seq<RemoteRow>) {
    forall a, b :: a in remote && b in remote && a.symbol == b.symbol ==> a.leverage == b.leverage
  }

  ghost predicate AllShort(remote: seq<RemoteRow>) {
    forall r :: r in remote ==> r.side == SHORT
  }

  ghost predicate Has(remote: seq<RemoteRow>, symbol: string) {
    exists r :: r in remote && r.symbol == symbol
  }

  ghost predicate AllIsolated(remote: seq<RemoteRow>, symbol: string) {
    forall r :: r in remote && r.symbol == symbol ==> r.isolated == Some(true)
  }

  /** Isolated expected: every row says so. Cross expected: a lone row must say cross;
      of several rows it is enough that not all say isolated. */
  ghost predicate MarginAgrees(remote: seq<RemoteRow>, symbol: string, expectedIsolated: bool) {
    if expectedIsolated then AllIsolated(remote, symbol)
    else if Count(RemoteWith(symbol), remote) == 1 then
      forall r :: r in remote && r.symbol == symbol ==> r.isolated == Some(false)
    else !AllIsolated(remote, symbol)
  }

  /** The remote rows for one local symbol are its short leg. */
  ghost predicate Matches(local: seq<LocalRow>, remote: seq<RemoteRow>, expectedIsolated: bool, symbol: string) {
    && Has(remote, symbol)
    && DecimalEqual(Sum(RemoteQuantity(symbol), remote), Sum(LocalQuantity(symbol), local))
    && (forall a, r :: a in local && r in remote && a.symbol == symbol && r.symbol == symbol ==> r.leverage == a.leverage as real)
    && MarginAgrees(remote, symbol, expectedIsolated)
  }

  ghost predicate Accepts(local: seq<LocalRow>, remote: seq<RemoteRow>, expectedIsolated: bool) {
    && UniformLocal(local)
    && AllShort(remote) && UniformRemote(remote)
    && (forall a :: a in local ==> Matches(local, remote, expectedIsolated, a.symbol))
    && (forall r :: r in remote ==> exists a :: a in local && a.symbol == r.symbol)
  }

  // ---------- what the dictionaries hold ----------

  ghost predicate ExpectedOf(local: seq<LocalRow>, m: map<string, (real, int)>) {
    && (forall a :: a in local ==> a.symbol in m && m[a.symbol].1 == a.leverage)
    && (forall s :: s in m ==> exists a :: a in local && a.symbol == s)
    && (forall s :: Sum(LocalQuantity(s), local) == if s in m then m[s].0 else 0.0)
  }

  ghost predicate FlagOf(remote: seq<RemoteRow>, symbol: string, flag: Option<bool>) {
    var n := Count(RemoteWith(symbol), remote);
    && n >= 1
    && (n == 1 ==> forall r :: r in remote && r.symbol == symbol ==> r.isolated == flag)
    && (n > 1 ==> flag == Some(AllIsolated(remote, symbol)))
  }

  ghost predicate RemoteOf(remote: seq<RemoteRow>, m: map<string, (real, real, Option<bool>)>) {
    && (forall r :: r in remote ==> r.symbol in m && m[r.symbol].1 == r.leverage)
    && (forall s :: s in m ==> Has(remote, s) && FlagOf(remote, s, m[s].2))
    && (forall s :: Sum(RemoteQuantity(s), remote) == if s in m then m[s].0 else 0.0)
  }

  lemma {:induction false} NoneCounted(remote: seq<RemoteRow>, symbol: string)
    ensures Count(RemoteWith(symbol), remote) == 0 <==> !Has(remote, symbol)
  {
    if remote != [] {
      NoneCounted(remote[1..], symbol);
      assert remote == [remote[0]] + remote[1..];
    }
  }

  function AddExpected(m: map<string, (real, int)>, a: LocalRow): map<string, (real, int)> {
    m[a.symbol := ((if a.symbol in m then m[a.symbol].0 else 0.0) + a.quantity, a.leverage)]
  }

  lemma ExpectedSums(done: seq<LocalRow>, a: LocalRow, m: map<string, (real, int)>, s: string)
    requires Sum(LocalQuantity(s), done) == if s in m then m[s].0 else 0.0
    ensures Sum(LocalQuantity(s), done + [a]) == if s in AddExpected(m, a) then AddExpected(m, a)[s].0 else 0.0
  {
    SumAppendOne(LocalQuantity(s), done, a);
  }

  lemma ExpectedStep(done: seq<LocalRow>, a: LocalRow, m: map<string, (real, int)>)
    requires ExpectedOf(done, m)
    requires a.symbol in m ==> m[a.symbol].1 == a.leverage
    ensures ExpectedOf(done + [a], AddExpected(m, a))
  {
    var m' := AddExpected(m, a);
    forall s ensures Sum(LocalQuantity(s), done + [a]) == if s in m' then m'[s].0 else 0.0 {
      ExpectedSums(done, a, m, s);
    }
    forall s | s in m' ensures exists b :: b in done + [a] && b.symbol == s {
      if s != a.symbol {
        var b :| b in done && b.symbol == s;
        assert b in done + [a];
      } else {
        assert a in done + [a];
      }
    }
    forall b | b in done + [a] ensures b.symbol in m' && m'[b.symbol].1 == b.leverage {
      assert b in done || b == a;
    }
  }

  /** The flag the loop stores: the row's own at first, then "all isolated so far". */
  function NextFlag(known: Option<(real, real, Option<bool>)>, r: RemoteRow): Option<bool> {
    match known
    case None => r.isolated
    case Some(previous) => Some(previous.2 == Some(true) && r.isolated == Some(true))
  }

  lemma FlagStep(done: seq<RemoteRow>, r: RemoteRow, known: Option<(real, real, Option<bool>)>)
    requires known.None? <==> !Has(done, r.symbol)
    requires known.Some? ==> FlagOf(done, r.symbol, known.value.2)
    ensures FlagOf(done + [r], r.symbol, NextFlag(known, r))
  {
    var s := r.symbol;
    CountAppend(RemoteWith(s), done, [r]);
    assert [r][1..] == [];
    NoneCounted(done, s);
    assert forall x :: x in done + [r] <==> x in done || x == r;
    if known.Some? {
      var q :| q in done && q.symbol == s;
      assert AllIsolated(done, s) <==> known.value.2 == Some(true);
      assert AllIsolated(done + [r], s) <==> AllIsolated(done, s) && r.isolated == Some(true);
    }
  }

  lemma FlagKept(done: seq<RemoteRow>, r: RemoteRow, s: string, flag: Option<bool>)
    requires FlagOf(done, s, flag) && s != r.symbol
    ensures FlagOf(done + [r], s, flag)
  {
    CountAppend(RemoteWith(s), done, [r]);
    assert [r][1..] == [];
    assert forall x :: x in done + [r] <==> x in done || x == r;
    assert AllIsolated(done + [r], s) <==> AllIsolated(done, s);
  }

  function AddRemote(m: map<string, (real, real, Option<bool>)>, r: RemoteRow): map<string, (real, real, Option<bool>)> {
    var known := if r.symbol in m then Some(m[r.symbol]) else None;
    m[r.symbol := ((if known.Some? then known.value.0 else 0.0) + r.quantity, r.leverage, NextFlag(known, r))]
  }

  lemma RemoteSums(done: seq<RemoteRow>, r: RemoteRow, m: map<string, (real, real, Option<bool>)>, s: string)
    requires Sum(RemoteQuantity(s), done) == if s in m then m[s].0 else 0.0
    ensures Sum(RemoteQuantity(s), done + [r]) == if s in AddRemote(m, r) then AddRemote(m, r)[s].0 else 0.0
  {
    SumAppendOne(RemoteQuantity(s), done, r);
  }

  lemma RemoteFlags(done: seq<RemoteRow>, r: RemoteRow, m: map<string, (real, real, Option<bool>)>, s: string)
    requires RemoteOf(done, m) && s in AddRemote(m, r)
    ensures Has(done + [r], s) && FlagOf(done + [r], s, AddRemote(m, r)[s].2)
  {
    if s == r.symbol {
      FlagStep(done, r, if s in m then Some(m[s]) else None);
      assert r in done + [r];
    } else {
      FlagKept(done, r, s, m[s].2);
      var q :| q in done && q.symbol == s;
      assert q in done + [r];
    }
  }

  lemma RemoteStep(done: seq<RemoteRow>, r: RemoteRow, m: map<string, (real, real, Option<bool>)>)
    requires RemoteOf(done, m)
    requires r.symbol in m ==> m[r.symbol].1 == r.leverage
    ensures RemoteOf(done + [r], AddRemote(m, r))
  {
    var m' := AddRemote(m, r);
    forall s ensures Sum(RemoteQuantity(s), done + [r]) == if s in m' then m'[s].0 else 0.0 {
      RemoteSums(done, r, m, s);
    }
    forall s | s in m' ensures Has(done + [r], s) && FlagOf(done + [r], s, m'[s].2) {
      RemoteFlags(done, r, m, s);
    }
    forall q | q in done + [r] ensures q.symbol in m' && m'[q.symbol].1 == q.leverage {
      assert q in done || q == r;
    }
  }

  // ---------- _validate_paired_positions ----------

  lemma ExpectedConflict(local: seq<LocalRow>, i: int, m: map<string, (real, int)>)
    requires 0 <= i < |local| && ExpectedOf(local[..i], m)
    requires local[i].symbol in m && m[local[i].symbol].1 != local[i].leverage
    ensures !UniformLocal(local)
  {
    var b :| b in local[..i] && b.symbol == local[i].symbol;
    assert b in local && local[i] in local;
  }

  lemma ExpectedUniform(local: seq<LocalRow>, m: map<string, (real, int)>)
    requires ExpectedOf(local, m)
    ensures UniformLocal(local)
  {
    forall a, b | a in local && b in local && a.symbol == b.symbol ensures a.leverage == b.leverage {
      assert m[a.symbol].1 == a.leverage && m[b.symbol].1 == b.leverage;
    }
  }

  /** The first loop; None when local rows of one symbol disagree on leverage. */
  method ExpectedBySymbol(local: seq<LocalRow>) returns (expected: Option<map<string, (real, int)>>)
    ensures expected.Some? <==> UniformLocal(local)
    ensures expected.Some? ==> ExpectedOf(local, expected.value)
  {
    var m: map<string, (real, int)> := map[];
    for i := 0 to |local|
      invariant ExpectedOf(local[..i], m)
    {
      var a := local[i];
      assert local[..i + 1] == local[..i] + [a];
      if a.symbol in m && m[a.symbol].1 != a.leverage {
        ExpectedConflict(local, i, m);
        return None;
      }
      ExpectedStep(local[..i], a, m);
      m := AddExpected(m, a);
    }
    assert local[..|local|] == local;
    ExpectedUniform(local, m);
    return Some(m);
  }

  lemma RemoteConflict(rows: seq<RemoteRow>, i: int, m: map<string, (real, real, Option<bool>)>)
    requires 0 <= i < |rows| && RemoteOf(rows[..i], m)
    requires rows[i].symbol in m && m[rows[i].symbol].1 != rows[i].leverage
    ensures !UniformRemote(rows)
  {
    var b :| b in rows[..i] && b.symbol == rows[i].symbol;
    assert b in rows && rows[i] in rows;
  }

  lemma RemoteUniform(rows: seq<RemoteRow>, m: map<string, (real, real, Option<bool>)>)
    requires RemoteOf(rows, m)
    ensures UniformRemote(rows)
  {
    forall a, b | a in rows && b in rows && a.symbol == b.symbol ensures a.leverage == b.leverage {
      assert m[a.symbol].1 == a.leverage && m[b.symbol].1 == b.leverage;
    }
  }

  /** The second loop; its verdict is Accepted when no row is refused. */
  method RemoteBySymbol(rows: seq<RemoteRow>)
    returns (verdict: Verdict, remote: map<string, (real, real, Option<bool>)>)
    ensures verdict in {Accepted, RemoteNotShort, RemoteLeverageConflict}
    ensures verdict == Accepted <==> AllShort(rows) && UniformRemote(rows)
    ensures verdict == Accepted ==> RemoteOf(rows, remote)
  {
    remote := map[];
    for i := 0 to |rows|
      invariant AllShort(rows[..i])
      invariant RemoteOf(rows[..i], remote)
    {
      var item := rows[i];
      assert rows[..i + 1] == rows[..i] + [item];
      assert item in rows;
      if item.side != SHORT {
        return RemoteNotShort, remote;
      }
      if item.symbol in remote && remote[item.symbol].1 != item.leverage {
        RemoteConflict(rows, i, remote);
        return RemoteLeverageConflict, remote;
      }
      RemoteStep(rows[..i], item, remote);
      remote := AddRemote(remote, item);
    }
    assert rows[..|rows|] == rows;
    RemoteUniform(rows, remote);
    return Accepted, remote;
  }

  predicate EntryMatches(
    e: map<string, (real, int)>, m: map<string, (real, real, Option<bool>)>, expectedIsolated: bool, symbol: string)
    requires symbol in e
  {
    && symbol in m
    && DecimalEqual(m[symbol].0, e[symbol].0)
    && m[symbol].1 == e[symbol].1 as real
    && m[symbol].2 == Some(expectedIsolated)
  }

  /** The last loop: take each expected symbol out of the remote dictionary. */
  method MatchDictionaries(
    e: map<string, (real, int)>, remote: map<string, (real, real, Option<bool>)>, expectedIsolated: bool)
    returns (verdict: Verdict)
    ensures verdict in {Accepted, PairConflict, RemoteUnmatched}
    ensures verdict == PairConflict <==> exists s :: s in e && !EntryMatches(e, remote, expectedIsolated, s)
    ensures verdict == Accepted <==>
      (forall s :: s in e ==> EntryMatches(e, remote, expectedIsolated, s)) && remote.Keys <= e.Keys
  {
    var left := remote;
    var todo := e.Keys;
    while todo != {}
      invariant todo <= e.Keys
      invariant left == remote - (e.Keys - todo)
      invariant forall s :: s in e && s !in todo ==> EntryMatches(e, remote, expectedIsolated, s)
    {
      var symbol :| symbol in todo;
      var (quantity, leverage) := e[symbol];
      if symbol !in left
         || !DecimalEqual(left[symbol].0, quantity)
         || left[symbol].1 != leverage as real
         || left[symbol].2 != Some(expectedIsolated)
      {
        assert !EntryMatches(e, remote, expectedIsolated, symbol);
        return PairConflict;
      }
      left := left - {symbol};
      todo := todo - {symbol};
    }
    if left != map[] {
      ghost var s :| s in left;
      assert s in remote.Keys && s !in e.Keys;
      return RemoteUnmatched;
    }
    forall s | s in remote ensures s in e {
      assert s !in left;
    }
    return Accepted;
  }

  lemma EntryMeans(
    local: seq<LocalRow>, remote: seq<RemoteRow>, expectedIsolated: bool,
    e: map<string, (real, int)>, m: map<string, (real, real, Option<bool>)>, symbol: string)
    requires ExpectedOf(local, e) && RemoteOf(remote, m) && symbol in e
    ensures Matches(local, remote, expectedIsolated, symbol) <==> EntryMatches(e, m, expectedIsolated, symbol)
  {
    var a :| a in local && a.symbol == symbol;
    if symbol in m {
      var r :| r in remote && r.symbol == symbol;
      assert FlagOf(remote, symbol, m[symbol].2);
      assert MarginAgrees(remote, symbol, expectedIsolated) <==> m[symbol].2 == Some(expectedIsolated);
    }
  }

  lemma AllMatch(
    local: seq<LocalRow>, remote: seq<RemoteRow>, expectedIsolated: bool,
    e: map<string, (real, int)>, m: map<string, (real, real, Option<bool>)>)
    requires ExpectedOf(local, e) && RemoteOf(remote, m)
    ensures (forall s :: s in e ==> EntryMatches(e, m, expectedIsolated, s))
        <==> (forall a :: a in local ==> Matches(local, remote, expectedIsolated, a.symbol))
  {
    forall a | a in local ensures Matches(local, remote, expectedIsolated, a.symbol) <==> EntryMatches(e, m, expectedIsolated, a.symbol) {
      EntryMeans(local, remote, expectedIsolated, e, m, a.symbol);
    }
    forall s | s in e ensures exists a :: a in local && a.symbol == s {
    }
  }

  lemma NoneUnmatched(
    local: seq<LocalRow>, remote: seq<RemoteRow>, e: map<string, (real, int)>, m: map<string, (real, real, Option<bool>)>)
    requires ExpectedOf(local, e) && RemoteOf(remote, m)
    ensures m.Keys <= e.Keys <==> forall r :: r in remote ==> exists a :: a in local && a.symbol == r.symbol
  {
    if m.Keys <= e.Keys {
      forall r | r in remote ensures exists a :: a in local && a.symbol == r.symbol {
        assert r.symbol in m.Keys;
      }
    } else {
      var s :| s in m.Keys && s !in e.Keys;
      var r :| r in remote && r.symbol == s;
    }
  }

  method ValidatePairedPositions(local: seq<LocalRow>, remotePositions: seq<RemoteRow>, expectedIsolated: bool)
    returns (verdict: Verdict)
    ensures verdict == Accepted <==> Accepts(local, remotePositions, expectedIsolated)
    ensures verdict == LocalLeverageConflict <==> !UniformLocal(local)
    ensures verdict in {RemoteNotShort, RemoteLeverageConflict} <==>
      UniformLocal(local) && !(AllShort(remotePositions) && UniformRemote(remotePositions))
    ensures verdict == PairConflict <==>
      && UniformLocal(local) && AllShort(remotePositions) && UniformRemote(remotePositions)
      && !(forall a :: a in local ==> Matches(local, remotePositions, expectedIsolated, a.symbol))
  {
    var expected := ExpectedBySymbol(local);
    if expected.None? {
      return LocalLeverageConflict;
    }
    var refused, remote := RemoteBySymbol(remotePositions);
    if refused != Accepted {
      return refused;
    }
    AllMatch(local, remotePositions, expectedIsolated, expected.value, remote);
    NoneUnmatched(local, remotePositions, expected.value, remote);
    verdict := MatchDictionaries(expected.value, remote, expectedIsolated);
  }

  // ---------- order ----------

  /** The verdict does not depend on the order in which either side lists its rows. */
  lemma AcceptsAnyOrder(
    local: seq<LocalRow>, remote: seq<RemoteRow>, local': seq<LocalRow>, remote': seq<RemoteRow>, expectedIsolated: bool)
    requires multiset(local) == multiset(local') && multiset(remote) == multiset(remote')
    requires Accepts(local, remote, expectedIsolated)
    ensures Accepts(local', remote', expectedIsolated)
  {
    SameMembers(local, local');
    SameMembers(remote, remote');
    forall a | a in local' ensures Matches(local', remote', expectedIsolated, a.symbol) {
      var s := a.symbol;
      assert Matches(local, remote, expectedIsolated, s);
      SumPermutes(LocalQuantity(s), local, local');
      SumPermutes(RemoteQuantity(s), remote, remote');
      CountPermutes(RemoteWith(s), remote, remote');
      assert AllIsolated(remote, s) <==> AllIsolated(remote', s);
      var r :| r in remote && r.symbol == s;
      assert r in remote';
    }
  }
}
