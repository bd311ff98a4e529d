/**
 Read and write statistics over the rows of the storage analytics tables.  Averages and the
 throughput are real numbers.
 */
module StorageStats {
  import opened Text

  datatype Row = Row(rowKey: string, ingress: int, egress: int, requests: int, averageE2E: real, averageServer: real)

  datatype Stat = Stat(bytes: Option<int>, ops: Option<int>, e2eLatency: Option<real>, serverLatency: Option<real>,
                       throughput: Option<real>)

  predicate StartsWithAny(s: string, prefixes: seq<string>)
  {
    exists p | p in prefixes :: StartsWith(s, p)
  }

  predicate IsUserRead(op: string)
  {
    StartsWith(op, "user;") && StartsWithAny(op[5..], ["Get", "List", "Preflight"])
  }

  predicate IsUserWrite(op: string)
  {
    StartsWith(op, "user;") && StartsWithAny(op[5..], ["Put", "Set", "Clear", "Delete", "Create", "Snapshot"])
  }

  predicate Anything(op: string)
  {
    true
  }

  function Filter(rows: seq<Row>, keep: string -> bool): seq<Row>
  {
    if rows == [] then []
    else if keep(rows[0].rowKey) then [rows[0]] + Filter(rows[1..], keep)
    else Filter(rows[1..], keep)
  }

  function Sum(rows: seq<Row>, f: Row -> int): int
  {
    if rows == [] then 0 else f(rows[0]) + Sum(rows[1..], f)
  }

  function Weighted(rows: seq<Row>, f: Row -> real): real
  {
    if rows == [] then 0.0 else rows[0].requests as real * f(rows[0]) + Weighted(rows[1..], f)
  }

  function Bytes(r: Row): int
  {
    r.ingress + r.egress
  }

  function Requests(r: Row): int
  {
    r.requests
  }

  function E2E(r: Row): real
  {
    r.averageE2E
  }

  function Server(r: Row): real
  {
    r.averageServer
  }

  function Latency(rows: seq<Row>, f: Row -> real): Option<real>
  {
    if Sum(rows, Requests) != 0 then Some(Weighted(rows, f) / Sum(rows, Requests) as real) else None
  }

  /** `storageStat`; a failed query has no rows at all. */
  function StorageStat(metrics: Option<seq<Row>>, keep: string -> bool): Stat
  {
    match metrics
    case None => Stat(None, None, None, None, None)
    case Some(all) =>
      var rows := Filter(all, keep);
      Stat(Some(Sum(rows, Bytes)), Some(Sum(rows, Requests)), Latency(rows, E2E), Latency(rows, Server),
           Some(Sum(rows, Bytes) as real / (1024.0 * 1024.0) / 60.0))
  }

  // ---------- Reads and writes are disjoint ----------

  lemma ReadLetters(rest: string)
    requires StartsWithAny(rest, ["Get", "List", "Preflight"])
    ensures |rest| >= 2 && (rest[0] == 'G' || rest[0] == 'L' || (rest[0] == 'P' && rest[1] == 'r'))
  {
    var p :| p in ["Get", "List", "Preflight"] && StartsWith(rest, p);
    assert rest[0] == p[0] && rest[1] == p[1];
  }

  lemma WriteLetters(rest: string)
    requires StartsWithAny(rest, ["Put", "Set", "Clear", "Delete", "Create", "Snapshot"])
    ensures |rest| >= 2 && (rest[0] == 'S' || rest[0] == 'C' || rest[0] == 'D' || (rest[0] == 'P' && rest[1] == 'u'))
  {
    var p :| p in ["Put", "Set", "Clear", "Delete", "Create", "Snapshot"] && StartsWith(rest, p);
    assert rest[0] == p[0] && rest[1] == p[1];
  }

  lemma NeverBoth(op: string)
    ensures !(IsUserRead(op) && IsUserWrite(op))
  {
    if IsUserRead(op) {
      ReadLetters(op[5..]);
      if StartsWithAny(op[5..], ["Put", "Set", "Clear", "Delete", "Create", "Snapshot"]) {
        WriteLetters(op[5..]);
      }
    }
  }

  predicate IsOther(op: string)
  {
    !IsUserRead(op) && !IsUserWrite(op)
  }

  lemma {:induction false} FilterSplits(rows: seq<Row>, f: Row -> int)
    ensures Sum(rows, f) == Sum(Filter(rows, IsUserRead), f) + Sum(Filter(rows, IsUserWrite), f) + Sum(Filter(rows, IsOther), f)
  {
    if rows != [] {
      NeverBoth(rows[0].rowKey);
      FilterSplits(rows[1..], f);
      SumCons(rows, f, IsUserRead);
      SumCons(rows, f, IsUserWrite);
      SumCons(rows, f, IsOther);
    }
  }

  lemma SumCons(rows: seq<Row>, f: Row -> int, keep: string -> bool)
    requires rows != []
    ensures Sum(Filter(rows, keep), f) == (if keep(rows[0].rowKey) then f(rows[0]) else 0) + Sum(Filter(rows[1..], keep), f)
  {
    assert keep(rows[0].rowKey) ==> Filter(rows, keep)[1..] == Filter(rows[1..], keep);
  }

  lemma {:induction false} SumNonNegative(rows: seq<Row>, f: Row -> int, keep: string -> bool)
    requires forall r | r in rows :: f(r) >= 0
    ensures Sum(Filter(rows, keep), f) >= 0
  {
    if rows != [] {
      SumNonNegative(rows[1..], f, keep);
      SumCons(rows, f, keep);
    }
  }

  lemma {:induction false} FilterAnything(rows: seq<Row>)
    ensures Filter(rows, Anything) == rows
  {
    if rows != [] {
      FilterAnything(rows[1..]);
    }
  }

  /** Bytes and operations are conserved: every row is a read, a write or neither, once. */
  lemma ReadsPlusWrites(rows: seq<Row>)
    ensures var read, write, other := StorageStat(Some(rows), IsUserRead), StorageStat(Some(rows), IsUserWrite), StorageStat(Some(rows), IsOther);
            var total := StorageStat(Some(rows), Anything);
            && total.bytes.value == read.bytes.value + write.bytes.value + other.bytes.value
            && total.ops.value == read.ops.value + write.ops.value + other.ops.value
            && ((forall r | r in rows :: r.ingress >= 0 && r.egress >= 0) ==> read.bytes.value + write.bytes.value <= total.bytes.value)
            && ((forall r | r in rows :: r.requests >= 0) ==> read.ops.value + write.ops.value <= total.ops.value)
  {
    FilterAnything(rows);
    FilterSplits(rows, Bytes);
    FilterSplits(rows, Requests);
    if forall r | r in rows :: r.ingress >= 0 && r.egress >= 0 {
      SumNonNegative(rows, Bytes, IsOther);
    }
    if forall r | r in rows :: r.requests >= 0 {
      SumNonNegative(rows, Requests, IsOther);
    }
  }

  // ---------- Latencies are means ----------

  predicate NonNegative(rows: seq<Row>)
  {
    forall r | r in rows :: r.requests >= 0
  }

  /** Every row that served a request has its average between lo and hi. */
  predicate Between(rows: seq<Row>, f: Row -> real, lo: real, hi: real)
  {
    forall r | r in rows && r.requests > 0 :: lo <= f(r) <= hi
  }

  lemma {:induction false} WeightedBounds(rows: seq<Row>, f: Row -> real, lo: real, hi: real)
    requires NonNegative(rows) && Between(rows, f, lo, hi)
    ensures Sum(rows, Requests) >= 0
    ensures lo * Sum(rows, Requests) as real <= Weighted(rows, f) <= hi * Sum(rows, Requests) as real
  {
    if rows != [] {
      var r, rest := rows[0], rows[1..];
      assert r in rows;
      assert Sum(rows, Requests) == r.requests + Sum(rest, Requests);
      assert Weighted(rows, f) == r.requests as real * f(r) + Weighted(rest, f);
      assert NonNegative(rest) && Between(rest, f, lo, hi);
      WeightedBounds(rest, f, lo, hi);
      AddBounds(r.requests, f(r), Sum(rest, Requests), Weighted(rest, f), lo, hi);
    }
  }

  lemma AddBounds(n: int, x: real, m: int, w: real, lo: real, hi: real)
    requires n >= 0 && (n > 0 ==> lo <= x <= hi)
    requires lo * m as real <= w <= hi * m as real
    ensures lo * (n + m) as real <= n as real * x + w <= hi * (n + m) as real
  {
    var k := n as real;
    assert (n + m) as real == k + m as real;
    if n > 0 {
      assert k * lo <= k * x <= k * hi;
    }
    assert lo * (k + m as real) == k * lo + lo * m as real;
    assert hi * (k + m as real) == k * hi + hi * m as real;
  }

  lemma DivideBounds(w: real, n: real, lo: real, hi: real)
    requires n > 0.0 && lo * n <= w <= hi * n
    ensures lo <= w / n <= hi
  {
    assert w == (w / n) * n;
  }

  lemma {:induction false} FilterKeeps(rows: seq<Row>, keep: string -> bool)
    ensures forall r :: r in Filter(rows, keep) <==> r in rows && keep(r.rowKey)
  {
    if rows != [] {
      FilterKeeps(rows[1..], keep);
    }
  }

  lemma MeanBounds(rows: seq<Row>, f: Row -> real, lo: real, hi: real)
    requires NonNegative(rows) && Sum(rows, Requests) != 0 && Between(rows, f, lo, hi)
    ensures lo <= Weighted(rows, f) / Sum(rows, Requests) as real <= hi
  {
    WeightedBounds(rows, f, lo, hi);
    DivideBounds(Weighted(rows, f), Sum(rows, Requests) as real, lo, hi);
  }

  /** A latency lies between the least and the greatest average of the rows it is taken over. */
  lemma LatencyIsMean(rows: seq<Row>, keep: string -> bool, lo: real, hi: real)
    requires NonNegative(rows)
    ensures var s, kept := StorageStat(Some(rows), keep), Filter(rows, keep);
            && (s.ops.value != 0 <==> s.e2eLatency.Some?) && (s.ops.value != 0 <==> s.serverLatency.Some?)
            && (s.ops.value != 0 && Between(kept, E2E, lo, hi) ==> lo <= s.e2eLatency.value <= hi)
            && (s.ops.value != 0 && Between(kept, Server, lo, hi) ==> lo <= s.serverLatency.value <= hi)
  {
    var kept := Filter(rows, keep);
    FilterKeeps(rows, keep);
    if Sum(kept, Requests) != 0 {
      if Between(kept, E2E, lo, hi) {
        MeanBounds(kept, E2E, lo, hi);
      }
      if Between(kept, Server, lo, hi) {
        MeanBounds(kept, Server, lo, hi);
      }
    }
  }

  lemma {:induction false} SumAppend(a: seq<Row>, b: seq<Row>, f: Row -> int)
    ensures Sum(a + b, f) == Sum(a, f) + Sum(b, f)
  {
    if a == [] {
      assert a + b == b;
    } else {
      SumAppend(a[1..], b, f);
      assert (a + b)[1..] == a[1..] + b;
    }
  }

  lemma {:induction false} WeightedAppend(a: seq<Row>, b: seq<Row>, f: Row -> real)
    ensures Weighted(a + b, f) == Weighted(a, f) + Weighted(b, f)
  {
    if a == [] {
      assert a + b == b;
    } else {
      WeightedAppend(a[1..], b, f);
      assert (a + b)[1..] == a[1..] + b;
    }
  }

  lemma {:induction false} FilterAppend(a: seq<Row>, b: seq<Row>, keep: string -> bool)
    ensures Filter(a + b, keep) == Filter(a, keep) + Filter(b, keep)
  {
    if a == [] {
      assert a + b == b;
    } else {
      FilterAppend(a[1..], b, keep);
      assert (a + b)[1..] == a[1..] + b;
    }
  }

  /** Seconds of latency behind a mean over `ops` requests; no requests, no seconds. */
  function Load(mean: Option<real>, ops: int): real
  {
    if mean.Some? then mean.value * ops as real else 0.0
  }

  lemma LoadIsWeighted(rows: seq<Row>, keep: string -> bool, f: Row -> real)
    requires NonNegative(rows)
    ensures Load(Latency(Filter(rows, keep), f), Sum(Filter(rows, keep), Requests)) == Weighted(Filter(rows, keep), f)
  {
    var kept := Filter(rows, keep);
    FilterKeeps(rows, keep);
    if Sum(kept, Requests) == 0 {
      NoRequestsNoWeight(kept, f);
    }
  }

  lemma {:induction false} NoRequestsNoWeight(rows: seq<Row>, f: Row -> real)
    requires NonNegative(rows) && Sum(rows, Requests) == 0
    ensures Weighted(rows, f) == 0.0
  {
    if rows != [] {
      assert rows[0] in rows;
      FilterAnything(rows[1..]);
      SumNonNegative(rows[1..], Requests, Anything);
      NoRequestsNoWeight(rows[1..], f);
    }
  }

  /** Statistics of two row lists combine: totals add, means combine by their operation counts. */
  lemma StatsCombine(a: seq<Row>, b: seq<Row>, keep: string -> bool)
    requires NonNegative(a) && NonNegative(b)
    ensures var sa, sb, s := StorageStat(Some(a), keep), StorageStat(Some(b), keep), StorageStat(Some(a + b), keep);
            && s.bytes.value == sa.bytes.value + sb.bytes.value
            && s.ops.value == sa.ops.value + sb.ops.value
            && s.throughput.value == sa.throughput.value + sb.throughput.value
            && Load(s.e2eLatency, s.ops.value) == Load(sa.e2eLatency, sa.ops.value) + Load(sb.e2eLatency, sb.ops.value)
            && Load(s.serverLatency, s.ops.value) == Load(sa.serverLatency, sa.ops.value) + Load(sb.serverLatency, sb.ops.value)
  {
    var fa, fb := Filter(a, keep), Filter(b, keep);
    FilterAppend(a, b, keep);
    SumAppend(fa, fb, Bytes);
    SumAppend(fa, fb, Requests);
    WeightedAppend(fa, fb, E2E);
    WeightedAppend(fa, fb, Server);
    LoadIsWeighted(a, keep, E2E);
    LoadIsWeighted(b, keep, E2E);
    LoadIsWeighted(a + b, keep, E2E);
    LoadIsWeighted(a, keep, Server);
    LoadIsWeighted(b, keep, Server);
    LoadIsWeighted(a + b, keep, Server);
  }

  // ---------- What single rows contribute ----------

  /** The statistics of one row that is counted; `StatsCombine` makes those of any list from these. */
  lemma OneRow(r: Row, keep: string -> bool)
    requires keep(r.rowKey)
    ensures var s := StorageStat(Some([r]), keep);
            && s.bytes == Some(r.ingress + r.egress) && s.ops == Some(r.requests)
            && s.e2eLatency == (if r.requests != 0 then Some(r.averageE2E) else None)
            && s.serverLatency == (if r.requests != 0 then Some(r.averageServer) else None)
            && s.throughput == Some((r.ingress + r.egress) as real / 62_914_560.0)
  {
    assert [r][1..] == [];
    assert Filter([r], keep) == [r];
    OneRowSums(r);
    OneRowLatency(r, E2E);
    OneRowLatency(r, Server);
    assert 1024.0 * 1024.0 * 60.0 == 62_914_560.0;
    Throughput((r.ingress + r.egress) as real);
  }

  lemma Throughput(bytes: real)
    ensures bytes / (1024.0 * 1024.0) / 60.0 == bytes / 62_914_560.0
  {
  }

  lemma OneRowLatency(r: Row, f: Row -> real)
    ensures Latency([r], f) == if r.requests != 0 then Some(f(r)) else None
  {
    assert [r][1..] == [];
    assert Sum([r], Requests) == r.requests;
    assert Weighted([r], f) == r.requests as real * f(r);
    if r.requests != 0 {
      var n := r.requests as real;
      assert n != 0.0 && Sum([r], Requests) as real == n;
      MeanOfOne(n, f(r));
      assert Weighted([r], f) / n == f(r);
    }
  }

  lemma OneRowSums(r: Row)
    ensures Sum([r], Bytes) == r.ingress + r.egress && Sum([r], Requests) == r.requests
  {
    assert [r][1..] == [];
  }

  lemma MeanOfOne(n: real, x: real)
    requires n != 0.0
    ensures n * x / n == x
  {
  }

  /** A row that is not counted contributes nothing, and a query that failed has no statistics. */
  lemma NoRow(r: Row, keep: string -> bool)
    requires !keep(r.rowKey)
    ensures StorageStat(Some([r]), keep) == Stat(Some(0), Some(0), None, None, Some(0.0))
    ensures StorageStat(None, keep) == Stat(None, None, None, None, None)
  {
    assert [r][1..] == [];
    assert Filter([r], keep) == [];
  }

  lemma PrefixBehind(head: string, prefix: string, op: string)
    requires head <= op
    ensures StartsWith(op[|head|..], prefix) <==> StartsWith(op, head + prefix)
  {
    var rest := op[|head|..];
    assert op == head + rest;
    if prefix <= rest {
      assert op[..|head + prefix|] == head + prefix;
    }
    if head + prefix <= op {
      assert forall i | 0 <= i < |prefix| :: rest[i] == op[|head| + i] == (head + prefix)[|head| + i];
    }
  }

  predicate ReadBegins(rest: string)
  {
    StartsWith(rest, "Get") || StartsWith(rest, "List") || StartsWith(rest, "Preflight")
  }

  lemma ReadPrefixes(rest: string)
    ensures StartsWithAny(rest, ["Get", "List", "Preflight"]) <==> ReadBegins(rest)
  {
    var p := ["Get", "List", "Preflight"];
    assert p[0] in p && p[1] in p && p[2] in p;
  }

  predicate WriteBegins(rest: string)
  {
    StartsWith(rest, "Put") || StartsWith(rest, "Set") || StartsWith(rest, "Clear") ||
    StartsWith(rest, "Delete") || StartsWith(rest, "Create") || StartsWith(rest, "Snapshot")
  }

  lemma WritePrefixes(rest: string)
    ensures StartsWithAny(rest, ["Put", "Set", "Clear", "Delete", "Create", "Snapshot"]) <==> WriteBegins(rest)
  {
    var p := ["Put", "Set", "Clear", "Delete", "Create", "Snapshot"];
    assert p[0] in p && p[1] in p && p[2] in p && p[3] in p && p[4] in p && p[5] in p;
  }

  /** The row keys that count as user reads. */
  lemma ReadsExactly(op: string)
    ensures IsUserRead(op) <==>
            StartsWith(op, "user;" + "Get") || StartsWith(op, "user;" + "List") || StartsWith(op, "user;" + "Preflight")
  {
    if "user;" <= op {
      ReadPrefixes(op[5..]);
      PrefixBehind("user;", "Get", op);
      PrefixBehind("user;", "List", op);
      PrefixBehind("user;", "Preflight", op);
    } else {
      NotBehind("user;", "Get", op);
      NotBehind("user;", "List", op);
      NotBehind("user;", "Preflight", op);
    }
  }

  lemma NotBehind(head: string, prefix: string, op: string)
    requires !(head <= op)
    ensures !StartsWith(op, head + prefix)
  {
    if |head| <= |op| {
      assert op[..|head|] != head;
      var i :| 0 <= i < |head| && head[i] != op[i];
      assert (head + prefix)[i] == head[i];
    }
  }

  /** The row keys that count as user writes. */
  lemma WritesExactly(op: string)
    ensures IsUserWrite(op) <==>
            || StartsWith(op, "user;" + "Put") || StartsWith(op, "user;" + "Set") || StartsWith(op, "user;" + "Clear")
            || StartsWith(op, "user;" + "Delete") || StartsWith(op, "user;" + "Create") || StartsWith(op, "user;" + "Snapshot")
  {
    if "user;" <= op {
      WritePrefixes(op[5..]);
      WritesBehind(op);
    } else {
      NotBehind("user;", "Put", op);
      NotBehind("user;", "Set", op);
      NotBehind("user;", "Clear", op);
      NotBehind("user;", "Delete", op);
      NotBehind("user;", "Create", op);
      NotBehind("user;", "Snapshot", op);
    }
  }

  lemma WritesBehind(op: string)
    requires "user;" <= op
    ensures WriteBegins(op[5..]) <==>
            || StartsWith(op, "user;" + "Put") || StartsWith(op, "user;" + "Set") || StartsWith(op, "user;" + "Clear")
            || StartsWith(op, "user;" + "Delete") || StartsWith(op, "user;" + "Create") || StartsWith(op, "user;" + "Snapshot")
  {
    PrefixBehind("user;", "Put", op);
    PrefixBehind("user;", "Set", op);
    PrefixBehind("user;", "Clear", op);
    PrefixBehind("user;", "Delete", op);
    PrefixBehind("user;", "Create", op);
    PrefixBehind("user;", "Snapshot", op);
  }
}
