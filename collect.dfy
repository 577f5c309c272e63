/**
 * The Prometheus query catalogue of experiments/exp03/trials/collect.go:
 * the bytes- and documents-stored queries, the latency-quantile and QPS
 * query generators, the in-place map merge `appendQueries`, and the merge
 * of the four maps the collect command performs.
 *
 * Quantiles are fixed-point numbers in millionths, so `%f` prints them
 * exactly and the integer percent `int(quantile*100)` is `quantile / 10000`.
 */
module Collect {
  import opened Format

  const TimeWindow: string := "30m"

  const Methods: seq<string> := ["Put", "Get"]

  /** 0.5 and 0.95, in millionths. */
  const Quantiles: seq<nat> := [500000, 950000]

  /** The stored-bytes queries, labelled `bytes.<kind>.<scope>`. */
  const BytesStoredQueries: map<string, string> := map[
    Label("bytes", "stored", "peer") := "sum by (pod_name)(grpc_server_doc_stored_size{})",
    Label("bytes", "stored", "cluster") := "sum by ()(grpc_server_doc_stored_size{})",
    Label("bytes", "store-rate", "peer") := "sum by (pod_name)(rate( grpc_server_doc_stored_size{}[" + TimeWindow + "]))",
    Label("bytes", "store-rate", "cluster") := "sum by ()(rate( grpc_server_doc_stored_size{}[" + TimeWindow + "]))"
  ]

  /** The stored-documents queries, labelled `docs.<kind>.<scope>`. */
  const DocsStoredQueries: map<string, string> := map[
    Label("docs", "stored", "peer") := "sum by (pod_name)(grpc_server_doc_stored_count{})",
    Label("docs", "stored", "cluster") := "sum by ()(grpc_server_doc_stored_count{})",
    Label("docs", "store-rate", "peer") := "sum by (pod_name)(rate( grpc_server_doc_stored_count{}[" + TimeWindow + "]))",
    Label("docs", "store-rate", "cluster") := "sum by ()(rate( grpc_server_doc_stored_count{}[" + TimeWindow + "]))"
  ]

  /** The bytes map holds exactly the four labels collect.go writes literally. */
  lemma BytesStoredLabels()
    ensures BytesStoredQueries.Keys == {"bytes.stored.peer", "bytes.stored.cluster", "bytes.store-rate.peer", "bytes.store-rate.cluster"}
  {
    StoredLabelsSpelled("bytes", "bytes.stored.peer", "bytes.stored.cluster");
    StoreRateLabelsSpelled("bytes", "bytes.store-rate.peer", "bytes.store-rate.cluster");
  }

  /** The docs map holds exactly the four labels collect.go writes literally. */
  lemma DocsStoredLabels()
    ensures DocsStoredQueries.Keys == {"docs.stored.peer", "docs.stored.cluster", "docs.store-rate.peer", "docs.store-rate.cluster"}
  {
    StoredLabelsSpelled("docs", "docs.stored.peer", "docs.stored.cluster");
    StoreRateLabelsSpelled("docs", "docs.store-rate.peer", "docs.store-rate.cluster");
  }

  /** `<owner>.stored.<scope>`, spelled out. */
  lemma StoredLabelsSpelled(owner: string, peer: string, cluster: string)
    requires peer == owner + ".stored.peer" && cluster == owner + ".stored.cluster"
    ensures Label(owner, "stored", "peer") == peer && Label(owner, "stored", "cluster") == cluster
  {
    assert "." + "stored" + "." + "peer" == ".stored.peer";
    assert "." + "stored" + "." + "cluster" == ".stored.cluster";
  }

  /** `<owner>.store-rate.<scope>`, spelled out. */
  lemma StoreRateLabelsSpelled(owner: string, peer: string, cluster: string)
    requires peer == owner + ".store-rate.peer" && cluster == owner + ".store-rate.cluster"
    ensures Label(owner, "store-rate", "peer") == peer && Label(owner, "store-rate", "cluster") == cluster
  {
    assert "." + "store-rate" + "." + "peer" == ".store-rate.peer";
    assert "." + "store-rate" + "." + "cluster" == ".store-rate.cluster";
  }

  // -------------------------------------------------------------- labels

  /** Every label in the catalogue reads `<owner>.<kind>.<scope>`. */
  function Label(owner: string, kind: string, scope: string): string {
    owner + "." + kind + "." + scope
  }

  /** A label splits uniquely when its kind and scope hold no dot. */
  lemma LabelParts(o1: string, k1: string, s1: string, o2: string, k2: string, s2: string)
    requires '.' !in k1 && '.' !in s1 && '.' !in k2 && '.' !in s2
    ensures Label(o1, k1, s1) == Label(o2, k2, s2) <==> o1 == o2 && k1 == k2 && s1 == s2
  {
    if Label(o1, k1, s1) == Label(o2, k2, s2) {
      assert Label(o1, k1, s1) == (o1 + "." + k1) + ['.'] + s1;
      assert Label(o2, k2, s2) == (o2 + "." + k2) + ['.'] + s2;
      SplitAtLastSeparator(o1 + "." + k1, s1, o2 + "." + k2, s2, '.');
      assert o1 + "." + k1 == o1 + ['.'] + k1 && o2 + "." + k2 == o2 + ['.'] + k2;
      SplitAtLastSeparator(o1, k1, o2, k2, '.');
    }
  }

  lemma NoDotInDigits(s: string)
    requires AllDigits(s)
    ensures '.' !in s && 'q' !in s
  {
    forall k | 0 <= k < |s|
      ensures s[k] != '.' && s[k] != 'q'
    {
      assert IsDigit(s[k]);
    }
  }

  // ---------------------------------------------------------- map writes

  /**
   * The map a generator loop builds by writing the entries of each part in
   * turn into an empty map: a later write to a label replaces an earlier one.
   */
  function MergeAll<K, V>(parts: seq<map<K, V>>): map<K, V> {
    if parts == [] then map[] else MergeAll(parts[..|parts| - 1]) + parts[|parts| - 1]
  }

  /** Every label of every part is in the merge. */
  lemma {:induction false} MergeAllHas<K, V>(parts: seq<map<K, V>>, k: nat, l: K)
    requires k < |parts| && l in parts[k]
    ensures l in MergeAll(parts)
  {
    var n := |parts| - 1;
    if k < n {
      MergeAllHas(parts[..n], k, l);
    }
  }

  /** The last part that writes a label. */
  predicate LastWriter<K, V>(parts: seq<map<K, V>>, l: K, k: nat) {
    k < |parts| && l in parts[k] && forall k' :: k < k' < |parts| ==> l !in parts[k']
  }

  /** Each label of the merge holds the value the last part that wrote it gave it. */
  lemma {:induction false} MergeAllLastWriter<K, V>(parts: seq<map<K, V>>, l: K) returns (k: nat)
    requires l in MergeAll(parts)
    ensures LastWriter(parts, l, k) && MergeAll(parts)[l] == parts[k][l]
  {
    var n := |parts| - 1;
    var prefix := parts[..n];
    if l in parts[n] {
      k := n;
    } else {
      k := MergeAllLastWriter(prefix, l);
      assert parts[k] == prefix[k];
      assert forall k' :: k < k' < n ==> parts[k'] == prefix[k'];
    }
  }

  // ------------------------------------------------------------- latency

  /** The kind of a latency label: `p` and the integer percent of the quantile. */
  function PercentKind(quantile: nat): (k: string)
    ensures '.' !in k && |k| >= 2 && k[0] == 'p' && IsDigit(k[1])
  {
    NoDotInDigits(NatToString(quantile / 10000));
    "p" + NatToString(quantile / 10000)
  }

  function LatencyLabel(rpc: string, quantile: nat, scope: string): string {
    Label(rpc, PercentKind(quantile), scope)
  }

  /** The label selector for one gRPC method. */
  function MethodSelector(rpc: string): string {
    "grpc_method=\"" + rpc + "\""
  }

  /** The range selector for the time window. */
  function WindowSelector(): string {
    "[" + TimeWindow + "]"
  }

  const LatencyBucket := ", \nsum(rate(grpc_server_handling_seconds_bucket{grpc_type=\"unary\","

  function LatencyQuery(quantile: nat, rpc: string, grouping: string): string {
    "histogram_quantile(" + MicrosToFixed(quantile) + LatencyBucket + MethodSelector(rpc) + "}" + WindowSelector()
      + ")) by (" + grouping + ")) * 1000"
  }

  const PeerLatencyGrouping := "pod_name, le"
  const ClusterLatencyGrouping := "le"

  /** The two entries written for one (quantile, method) pair, peer first. */
  function LatencyPair(quantile: nat, rpc: string): map<string, string> {
    map[LatencyLabel(rpc, quantile, "peer") := LatencyQuery(quantile, rpc, PeerLatencyGrouping)]
       [LatencyLabel(rpc, quantile, "cluster") := LatencyQuery(quantile, rpc, ClusterLatencyGrouping)]
  }

  /** getLatencyQueries: the outer loop over quantiles, each round the inner loop over methods. */
  function LatencyQueries(quantiles: seq<nat>, methods: seq<string>): map<string, string> {
    MergeAll(LatencyRounds(quantiles, methods))
  }

  /** `l` maps to `v` as the peer or the cluster entry of the pair (quantile, method). */
  predicate LatencyEntry(quantile: nat, rpc: string, l: string, v: string) {
    || (l == LatencyLabel(rpc, quantile, "peer") && v == LatencyQuery(quantile, rpc, PeerLatencyGrouping))
    || (l == LatencyLabel(rpc, quantile, "cluster") && v == LatencyQuery(quantile, rpc, ClusterLatencyGrouping))
  }

  /** Latency labels are equal exactly when method, percent and scope are. */
  lemma LatencyLabelInjective(m1: string, q1: nat, s1: string, m2: string, q2: nat, s2: string)
    requires '.' !in s1 && '.' !in s2
    ensures LatencyLabel(m1, q1, s1) == LatencyLabel(m2, q2, s2) <==> m1 == m2 && q1 / 10000 == q2 / 10000 && s1 == s2
  {
    LabelParts(m1, PercentKind(q1), s1, m2, PercentKind(q2), s2);
    if PercentKind(q1) == PercentKind(q2) {
      assert NatToString(q1 / 10000) == PercentKind(q1)[1..];
      assert NatToString(q2 / 10000) == PercentKind(q2)[1..];
      NatToStringInjective(q1 / 10000, q2 / 10000);
    }
  }

  lemma LatencyPairEntries(quantile: nat, rpc: string)
    ensures var p := LatencyPair(quantile, rpc);
      && LatencyLabel(rpc, quantile, "peer") in p && LatencyLabel(rpc, quantile, "cluster") in p
      && forall l :: l in p ==> LatencyEntry(quantile, rpc, l, p[l])
  {
    LatencyLabelInjective(rpc, quantile, "peer", rpc, quantile, "cluster");
  }

  /** The loop body of getLatencyQueries for one quantile, as the map the outer loop merges. */
  function LatencyParts(quantile: nat, methods: seq<string>): seq<map<string, string>>
  {
    seq(|methods|, j requires 0 <= j < |methods| => LatencyPair(quantile, methods[j]))
  }

  function LatencyRounds(quantiles: seq<nat>, methods: seq<string>): seq<map<string, string>>
  {
    seq(|quantiles|, i requires 0 <= i < |quantiles| => MergeAll(LatencyParts(quantiles[i], methods)))
  }

  /** getLatencyQueries holds the peer and the cluster label of every (quantile, method) pair. */
  lemma LatencyQueriesHas(quantiles: seq<nat>, methods: seq<string>, i: nat, j: nat)
    requires i < |quantiles| && j < |methods|
    ensures LatencyLabel(methods[j], quantiles[i], "peer") in LatencyQueries(quantiles, methods)
    ensures LatencyLabel(methods[j], quantiles[i], "cluster") in LatencyQueries(quantiles, methods)
  {
    var inner, outer := LatencyParts(quantiles[i], methods), LatencyRounds(quantiles, methods);
    assert LatencyQueries(quantiles, methods) == MergeAll(outer);
    LatencyPairEntries(quantiles[i], methods[j]);
    var peer, cluster := LatencyLabel(methods[j], quantiles[i], "peer"), LatencyLabel(methods[j], quantiles[i], "cluster");
    MergeAllHas(inner, j, peer);
    MergeAllHas(inner, j, cluster);
    MergeAllHas(outer, i, peer);
    MergeAllHas(outer, i, cluster);
  }

  /** Each label of getLatencyQueries is the peer or cluster label of some pair and maps to that pair's query. */
  lemma LatencyQueriesOnly(quantiles: seq<nat>, methods: seq<string>, l: string) returns (i: nat, j: nat, peer: bool)
    requires l in LatencyQueries(quantiles, methods)
    ensures i < |quantiles| && j < |methods|
    ensures l == LatencyLabel(methods[j], quantiles[i], ScopeName(peer))
    ensures LatencyQueries(quantiles, methods)[l] == LatencyQuery(quantiles[i], methods[j], LatencyGrouping(peer))
  {
    var outer := LatencyRounds(quantiles, methods);
    assert LatencyQueries(quantiles, methods) == MergeAll(outer);
    i := MergeAllLastWriter(outer, l);
    var inner := LatencyParts(quantiles[i], methods);
    j := MergeAllLastWriter(inner, l);
    LatencyPairEntries(quantiles[i], methods[j]);
    peer := l == LatencyLabel(methods[j], quantiles[i], "peer");
  }

  /** Each label of getLatencyQueries is a latency label, with a scope free of dots. */
  lemma LatencyLabelShape(quantiles: seq<nat>, methods: seq<string>, l: string) returns (rpc: string, q: nat, scope: string)
    requires l in LatencyQueries(quantiles, methods)
    ensures l == LatencyLabel(rpc, q, scope) && (scope == "peer" || scope == "cluster")
  {
    var i, j, peer := LatencyQueriesOnly(quantiles, methods, l);
    rpc, q, scope := methods[j], quantiles[i], ScopeName(peer);
  }

  /**
   * When no two quantiles share an integer percent, the label of each
   * (quantile, method) pair maps to exactly that pair's query.
   */
  lemma LatencyQueriesExact(quantiles: seq<nat>, methods: seq<string>, i: nat, j: nat)
    requires i < |quantiles| && j < |methods|
    requires forall a, b :: 0 <= a < b < |quantiles| ==> quantiles[a] / 10000 != quantiles[b] / 10000
    ensures var m, q, rpc := LatencyQueries(quantiles, methods), quantiles[i], methods[j];
      && LatencyLabel(rpc, q, "peer") in m && m[LatencyLabel(rpc, q, "peer")] == LatencyQuery(q, rpc, PeerLatencyGrouping)
      && LatencyLabel(rpc, q, "cluster") in m && m[LatencyLabel(rpc, q, "cluster")] == LatencyQuery(q, rpc, ClusterLatencyGrouping)
  {
    LatencyQueriesHas(quantiles, methods, i, j);
    var m, q, rpc := LatencyQueries(quantiles, methods), quantiles[i], methods[j];
    forall peer: bool
      ensures m[LatencyLabel(rpc, q, ScopeName(peer))] == LatencyQuery(q, rpc, LatencyGrouping(peer))
    {
      var l := LatencyLabel(rpc, q, ScopeName(peer));
      assert l in m;
      var i1, j1, peer1 := LatencyQueriesOnly(quantiles, methods, l);
      LatencyEntryAt(quantiles[i1], methods[j1], peer1, q, rpc, peer);
      assert i1 == i;
    }
    assert ScopeName(true) == "peer" && ScopeName(false) == "cluster";
  }

  function ScopeName(peer: bool): string {
    if peer then "peer" else "cluster"
  }

  function LatencyGrouping(peer: bool): string {
    if peer then PeerLatencyGrouping else ClusterLatencyGrouping
  }

  /** An entry found under the label of (q, rpc) belongs to the same method and percent. */
  lemma LatencyEntryAt(q1: nat, m1: string, peer1: bool, q: nat, rpc: string, peer: bool)
    requires LatencyLabel(m1, q1, ScopeName(peer1)) == LatencyLabel(rpc, q, ScopeName(peer))
    ensures m1 == rpc && q1 / 10000 == q / 10000 && peer1 == peer
  {
    LatencyLabelInjective(m1, q1, ScopeName(peer1), rpc, q, ScopeName(peer));
  }

  /** A latency query names its method, its time window and its quantile. */
  lemma LatencyQueryNames(quantile: nat, rpc: string, grouping: string)
    ensures Contains(LatencyQuery(quantile, rpc, grouping), MethodSelector(rpc))
    ensures Contains(LatencyQuery(quantile, rpc, grouping), WindowSelector())
    ensures Contains(LatencyQuery(quantile, rpc, grouping), MicrosToFixed(quantile))
  {
    var fixed := MicrosToFixed(quantile);
    var a := "histogram_quantile(" + fixed;
    var b := a + LatencyBucket + MethodSelector(rpc);
    var c := b + "}" + WindowSelector();
    var d := c + ")) by (" + grouping;
    ContainsSuffix("histogram_quantile(", fixed);
    ContainsExtend(a, fixed, LatencyBucket);
    ContainsExtend(a + LatencyBucket, fixed, MethodSelector(rpc));
    ContainsSuffix(a + LatencyBucket, MethodSelector(rpc));
    ContainsSuffix(b + "}", WindowSelector());
    forall sub | sub in {fixed, MethodSelector(rpc)}
      ensures Contains(c, sub)
    {
      ContainsExtend(b, sub, "}");
      ContainsExtend(b + "}", sub, WindowSelector());
    }
    forall sub | sub in {fixed, MethodSelector(rpc), WindowSelector()}
      ensures Contains(LatencyQuery(quantile, rpc, grouping), sub)
    {
      ContainsExtend(c, sub, ")) by (");
      ContainsExtend(c + ")) by (", sub, grouping);
      ContainsExtend(d, sub, ")) * 1000");
    }
  }

  // ----------------------------------------------------------------- QPS

  function QpsQuery(grouping: string, selector: string): string {
    "sum by (" + grouping + ")(rate( grpc_server_handled_total{" + selector + "}" + WindowSelector() + " ))"
  }

  const AllQpsPeer := "all.qps.peer"
  const AllQpsCluster := "all.qps.cluster"

  /** The entries for all methods together, written before the loop. */
  function AllQpsPair(): map<string, string> {
    map[AllQpsPeer := QpsQuery("pod_name", "")][AllQpsCluster := QpsQuery("", "")]
  }

  /** The two entries written for one method, peer first. */
  function QpsPair(rpc: string): map<string, string> {
    map[Label(rpc, "qps", "peer") := QpsQuery("pod_name", MethodSelector(rpc))]
       [Label(rpc, "qps", "cluster") := QpsQuery("", MethodSelector(rpc))]
  }

  /** getQPSQueries: the all-methods entries, then one pair per method. */
  function QpsQueries(methods: seq<string>): map<string, string> {
    MergeAll(QpsParts(methods))
  }

  lemma AllLabels()
    ensures AllQpsPeer == Label("all", "qps", "peer") && AllQpsCluster == Label("all", "qps", "cluster")
  {
  }

  /** `l` is the peer or cluster QPS label of `owner`. */
  predicate IsQpsLabel(owner: string, l: string) {
    l == Label(owner, "qps", "peer") || l == Label(owner, "qps", "cluster")
  }

  /** `l` maps to `v` as the peer or the cluster entry of one method. */
  predicate QpsEntry(rpc: string, l: string, v: string) {
    || (l == Label(rpc, "qps", "peer") && v == QpsQuery("pod_name", MethodSelector(rpc)))
    || (l == Label(rpc, "qps", "cluster") && v == QpsQuery("", MethodSelector(rpc)))
  }

  lemma QpsPairEntries(rpc: string)
    ensures var p := QpsPair(rpc);
      && Label(rpc, "qps", "peer") in p && Label(rpc, "qps", "cluster") in p
      && forall l :: l in p ==> QpsEntry(rpc, l, p[l])
  {
    LabelParts(rpc, "qps", "peer", rpc, "qps", "cluster");
  }

  /** The parts getQPSQueries writes, in order. */
  function QpsParts(methods: seq<string>): seq<map<string, string>>
  {
    [AllQpsPair()] + seq(|methods|, j requires 0 <= j < |methods| => QpsPair(methods[j]))
  }

  /** The all-methods pair comes first, then each method's pair in order. */
  lemma QpsPartsAt(methods: seq<string>)
    ensures var parts := QpsParts(methods);
      && |parts| == |methods| + 1 && parts[0] == AllQpsPair()
      && forall j :: 0 <= j < |methods| ==> parts[j + 1] == QpsPair(methods[j])
  {
  }

  /** An entry of one method's pair found under the label of `rpc` is `rpc`'s entry. */
  lemma QpsEntryAt(other: string, l: string, v: string, rpc: string, peer: bool)
    requires QpsEntry(other, l, v)
    requires l == Label(rpc, "qps", ScopeName(peer))
    ensures other == rpc
    ensures v == QpsQuery(if peer then "pod_name" else "", MethodSelector(rpc))
  {
    LabelParts(other, "qps", "peer", rpc, "qps", ScopeName(peer));
    LabelParts(other, "qps", "cluster", rpc, "qps", ScopeName(peer));
  }

  /** For every method, getQPSQueries maps its peer and cluster labels to queries on that method. */
  lemma QpsQueriesMethods(methods: seq<string>, j: nat)
    requires j < |methods|
    ensures var m, rpc := QpsQueries(methods), methods[j];
      && Label(rpc, "qps", "peer") in m && m[Label(rpc, "qps", "peer")] == QpsQuery("pod_name", MethodSelector(rpc))
      && Label(rpc, "qps", "cluster") in m && m[Label(rpc, "qps", "cluster")] == QpsQuery("", MethodSelector(rpc))
  {
    var parts := QpsParts(methods);
    QpsPartsAt(methods);
    var m, rpc := MergeAll(parts), methods[j];
    QpsPairEntries(rpc);
    forall peer: bool
      ensures Label(rpc, "qps", ScopeName(peer)) in m
      ensures m[Label(rpc, "qps", ScopeName(peer))] == QpsQuery(if peer then "pod_name" else "", MethodSelector(rpc))
    {
      var l := Label(rpc, "qps", ScopeName(peer));
      MergeAllHas(parts, j + 1, l);
      var k := MergeAllLastWriter(parts, l);
      assert k >= j + 1;
      QpsPairEntries(methods[k - 1]);
      QpsEntryAt(methods[k - 1], l, m[l], rpc, peer);
    }
    assert ScopeName(true) == "peer" && ScopeName(false) == "cluster";
  }

  /** getQPSQueries holds the two all-methods labels and the labels of its methods, and no other. */
  lemma QpsQueriesLabels(methods: seq<string>)
    ensures var m := QpsQueries(methods);
      && AllQpsPeer in m && AllQpsCluster in m
      && (forall l :: l in m ==> IsQpsLabel("all", l) || exists j :: 0 <= j < |methods| && IsQpsLabel(methods[j], l))
  {
    var parts := QpsParts(methods);
    QpsPartsAt(methods);
    var m := MergeAll(parts);
    AllLabels();
    MergeAllHas(parts, 0, AllQpsPeer);
    MergeAllHas(parts, 0, AllQpsCluster);
    forall l | l in m
      ensures IsQpsLabel("all", l) || exists j :: 0 <= j < |methods| && IsQpsLabel(methods[j], l)
    {
      var k := MergeAllLastWriter(parts, l);
      if k > 0 {
        assert IsQpsLabel(methods[k - 1], l);
      }
    }
  }

  /** Unless a method is itself called "all", the all-methods queries survive the loop. */
  lemma QpsQueriesAll(methods: seq<string>)
    requires "all" !in methods
    ensures var m := QpsQueries(methods);
      && AllQpsPeer in m && m[AllQpsPeer] == QpsQuery("pod_name", "")
      && AllQpsCluster in m && m[AllQpsCluster] == QpsQuery("", "")
  {
    var parts := QpsParts(methods);
    QpsPartsAt(methods);
    var m := MergeAll(parts);
    AllLabels();
    LabelParts("all", "qps", "peer", "all", "qps", "cluster");
    forall peer: bool
      ensures Label("all", "qps", ScopeName(peer)) in m
      ensures m[Label("all", "qps", ScopeName(peer))] == AllQpsPair()[Label("all", "qps", ScopeName(peer))]
    {
      var l := Label("all", "qps", ScopeName(peer));
      MergeAllHas(parts, 0, l);
      var k := MergeAllLastWriter(parts, l);
      if k > 0 {
        QpsPairEntries(methods[k - 1]);
        QpsEntryAt(methods[k - 1], l, m[l], "all", peer);
        assert false;
      }
    }
    assert ScopeName(true) == "peer" && ScopeName(false) == "cluster";
  }

  /** A per-method QPS query names its method and the time window. */
  lemma QpsQueryNames(grouping: string, rpc: string)
    ensures Contains(QpsQuery(grouping, MethodSelector(rpc)), MethodSelector(rpc))
    ensures Contains(QpsQuery(grouping, MethodSelector(rpc)), WindowSelector())
  {
    var a := "sum by (" + grouping + ")(rate( grpc_server_handled_total{" + MethodSelector(rpc);
    ContainsSuffix("sum by (" + grouping + ")(rate( grpc_server_handled_total{", MethodSelector(rpc));
    ContainsExtend(a, MethodSelector(rpc), "}");
    ContainsExtend(a + "}", MethodSelector(rpc), WindowSelector());
    ContainsSuffix(a + "}", WindowSelector());
    ContainsExtend(a + "}" + WindowSelector(), MethodSelector(rpc), " ))");
    ContainsExtend(a + "}" + WindowSelector(), WindowSelector(), " ))");
  }

  // --------------------------------------------------------------- merge

  /** The map the collect command fills, mutated in place by appendQueries. */
  class QueryMap {
    var entries: map<string, string>

    constructor ()
      ensures entries == map[]
    {
      entries := map[];
    }

    /**
     * appendQueries(a, b): copy every entry of `b` into `a`, in whatever
     * order the map iteration yields them.
     */
    method Append(b: map<string, string>)
      modifies this
      ensures entries == old(entries) + b
    {
      var todo := b.Keys;
      while todo != {}
        invariant todo <= b.Keys
        invariant entries.Keys == old(entries).Keys + (b.Keys - todo)
        invariant forall l :: l in entries ==> entries[l] == if l in b && l !in todo then b[l] else old(entries)[l]
        decreases todo
      {
        var l :| l in todo;
        entries := entries[l := b[l]];
        todo := todo - {l};
      }
    }
  }

  /** The kinds of the fixed maps, `stored` and `store-rate`, and their scopes. */
  predicate FixedKindScope(kind: string, scope: string) {
    (kind == "stored" || kind == "store-rate") && (scope == "peer" || scope == "cluster")
  }

  /** Labels whose kinds differ are different labels. */
  lemma KindsDiffer(o1: string, k1: string, s1: string, o2: string, k2: string, s2: string)
    requires '.' !in k1 && '.' !in s1 && '.' !in k2 && '.' !in s2 && k1 != k2
    ensures Label(o1, k1, s1) != Label(o2, k2, s2)
  {
    LabelParts(o1, k1, s1, o2, k2, s2);
  }

  /** A `stored` or `store-rate` label is not among getLatencyQueries' labels. */
  lemma FixedLabelIsNotLatency(quantiles: seq<nat>, methods: seq<string>, owner: string, kind: string, scope: string)
    requires FixedKindScope(kind, scope)
    ensures Label(owner, kind, scope) !in LatencyQueries(quantiles, methods)
  {
    forall l | l in LatencyQueries(quantiles, methods) ensures l != Label(owner, kind, scope) {
      var rpc, q, scope' := LatencyLabelShape(quantiles, methods, l);
      LatencyLabelIsNotFixed(rpc, q, scope', owner, kind, scope);
    }
  }

  lemma LatencyLabelIsNotFixed(rpc: string, quantile: nat, scope': string, owner: string, kind: string, scope: string)
    requires '.' !in scope' && FixedKindScope(kind, scope)
    ensures LatencyLabel(rpc, quantile, scope') != Label(owner, kind, scope)
  {
    var k := PercentKind(quantile);
    assert k != kind by {
      assert k[0] == 'p' && kind[0] == 's';
    }
    KindsDiffer(rpc, k, scope', owner, kind, scope);
  }

  lemma QpsLabelIsNotFixed(rpc: string, l: string, owner: string, kind: string, scope: string)
    requires IsQpsLabel(rpc, l) && FixedKindScope(kind, scope)
    ensures l != Label(owner, kind, scope)
  {
    KindsDiffer(rpc, "qps", "peer", owner, kind, scope);
    KindsDiffer(rpc, "qps", "cluster", owner, kind, scope);
  }

  /** A `stored` or `store-rate` label is not among getQPSQueries' labels. */
  lemma FixedLabelIsNotQps(methods: seq<string>, owner: string, kind: string, scope: string)
    requires FixedKindScope(kind, scope)
    ensures Label(owner, kind, scope) !in QpsQueries(methods)
  {
    QpsQueriesLabels(methods);
    forall l | l in QpsQueries(methods) ensures l != Label(owner, kind, scope) {
      if IsQpsLabel("all", l) {
        QpsLabelIsNotFixed("all", l, owner, kind, scope);
      } else {
        var j :| 0 <= j < |methods| && IsQpsLabel(methods[j], l);
        QpsLabelIsNotFixed(methods[j], l, owner, kind, scope);
      }
    }
  }

  /** A latency label never reads as a QPS label: the kinds `p<pct>` and `qps` differ. */
  lemma LatencyLabelIsNotQpsLabel(rpc: string, quantile: nat, scope: string, owner: string, scope': string)
    requires '.' !in scope && '.' !in scope'
    ensures LatencyLabel(rpc, quantile, scope) != Label(owner, "qps", scope')
  {
    var kind := PercentKind(quantile);
    assert kind != "qps" by {
      NoDotInDigits(NatToString(quantile / 10000));
      assert kind[1] == NatToString(quantile / 10000)[0];
    }
    LabelParts(rpc, kind, scope, owner, "qps", scope');
  }

  /** No latency label is a QPS label. */
  lemma LatencyLabelIsNotQps(quantiles: seq<nat>, methods: seq<string>, l: string)
    requires l in LatencyQueries(quantiles, methods)
    ensures l !in QpsQueries(methods)
  {
    var rpc, q, scope := LatencyLabelShape(quantiles, methods, l);
    LatencyLabelIsNoQpsLabel(rpc, q, scope, methods);
    QpsQueriesLabels(methods);
  }

  lemma LatencyLabelIsNoQpsLabel(rpc: string, quantile: nat, scope: string, methods: seq<string>)
    requires '.' !in scope
    ensures !IsQpsLabel("all", LatencyLabel(rpc, quantile, scope))
    ensures forall j :: 0 <= j < |methods| ==> !IsQpsLabel(methods[j], LatencyLabel(rpc, quantile, scope))
  {
    forall owner | owner == "all" || owner in methods
      ensures !IsQpsLabel(owner, LatencyLabel(rpc, quantile, scope))
    {
      LatencyLabelIsNotQpsLabel(rpc, quantile, scope, owner, "peer");
      LatencyLabelIsNotQpsLabel(rpc, quantile, scope, owner, "cluster");
    }
  }

  lemma EmptyMerge<K, V>(m: map<K, V>)
    ensures map[] + m == m
  {
  }

  /**
   * What appendQueries(a, b) leaves in `a`: every label of `b` with its
   * query from `b`, every other label of `a` unchanged, nothing else; and a
   * second append of the same `b` changes nothing.
   */
  lemma AppendProperties(a: map<string, string>, b: map<string, string>)
    ensures (a + b).Keys == a.Keys + b.Keys
    ensures forall l :: l in b ==> (a + b)[l] == b[l]
    ensures forall l :: l in a && l !in b ==> (a + b)[l] == a[l]
    ensures (a + b) + b == a + b
  {
  }

  /**
   * The four maps of the catalogue have pairwise disjoint labels, whatever
   * the methods and quantiles: the kinds `stored`, `store-rate`, `p<pct>`
   * and `qps` never coincide, and the bytes and docs owners differ.
   */
  lemma CatalogueDisjoint(quantiles: seq<nat>, methods: seq<string>)
    ensures var lat, qps := LatencyQueries(quantiles, methods), QpsQueries(methods);
      && BytesStoredQueries.Keys !! DocsStoredQueries.Keys
      && BytesStoredQueries.Keys !! lat.Keys && BytesStoredQueries.Keys !! qps.Keys
      && DocsStoredQueries.Keys !! lat.Keys && DocsStoredQueries.Keys !! qps.Keys
      && lat.Keys !! qps.Keys
  {
    FixedMapsDisjoint();
    FixedMapsAreNotGenerated(quantiles, methods);
    GeneratedMapsDisjoint(quantiles, methods);
  }

  lemma FixedMapsAreNotGenerated(quantiles: seq<nat>, methods: seq<string>)
    ensures var lat, qps := LatencyQueries(quantiles, methods), QpsQueries(methods);
      && BytesStoredQueries.Keys !! lat.Keys && BytesStoredQueries.Keys !! qps.Keys
      && DocsStoredQueries.Keys !! lat.Keys && DocsStoredQueries.Keys !! qps.Keys
  {
    FixedMapIsNotGenerated(quantiles, methods, "bytes", BytesStoredQueries);
    FixedMapIsNotGenerated(quantiles, methods, "docs", DocsStoredQueries);
  }

  lemma GeneratedMapsDisjoint(quantiles: seq<nat>, methods: seq<string>)
    ensures LatencyQueries(quantiles, methods).Keys !! QpsQueries(methods).Keys
  {
    forall l | l in LatencyQueries(quantiles, methods)
      ensures l !in QpsQueries(methods)
    {
      LatencyLabelIsNotQps(quantiles, methods, l);
    }
  }

  /** The bytes and docs labels already differ in their first character. */
  lemma FixedMapsDisjoint()
    ensures BytesStoredQueries.Keys !! DocsStoredQueries.Keys
  {
    assert forall l :: l in BytesStoredQueries ==> l[0] == 'b';
    assert forall l :: l in DocsStoredQueries ==> l[0] == 'd';
  }

  /** The four labels a fixed map uses for `owner` are neither latency nor QPS labels. */
  lemma FixedMapIsNotGenerated(quantiles: seq<nat>, methods: seq<string>, owner: string, fixed: map<string, string>)
    requires fixed.Keys == {Label(owner, "stored", "peer"), Label(owner, "stored", "cluster"),
                            Label(owner, "store-rate", "peer"), Label(owner, "store-rate", "cluster")}
    ensures fixed.Keys !! LatencyQueries(quantiles, methods).Keys && fixed.Keys !! QpsQueries(methods).Keys
  {
    FixedLabelIsNotLatency(quantiles, methods, owner, "stored", "peer");
    FixedLabelIsNotLatency(quantiles, methods, owner, "stored", "cluster");
    FixedLabelIsNotLatency(quantiles, methods, owner, "store-rate", "peer");
    FixedLabelIsNotLatency(quantiles, methods, owner, "store-rate", "cluster");
    FixedLabelIsNotQps(methods, owner, "stored", "peer");
    FixedLabelIsNotQps(methods, owner, "stored", "cluster");
    FixedLabelIsNotQps(methods, owner, "store-rate", "peer");
    FixedLabelIsNotQps(methods, owner, "store-rate", "cluster");
  }

  /**
   * Appending the bytes, docs, latency and QPS maps in that order keeps every
   * entry of each of them, because their labels are disjoint.
   */
  lemma MergeKeepsEveryEntry(quantiles: seq<nat>, methods: seq<string>)
    ensures var lat, qps := LatencyQueries(quantiles, methods), QpsQueries(methods);
      var all := BytesStoredQueries + DocsStoredQueries + lat + qps;
      && all.Keys == BytesStoredQueries.Keys + DocsStoredQueries.Keys + lat.Keys + qps.Keys
      && (forall l :: l in BytesStoredQueries ==> all[l] == BytesStoredQueries[l])
      && (forall l :: l in DocsStoredQueries ==> all[l] == DocsStoredQueries[l])
      && (forall l :: l in lat ==> all[l] == lat[l])
      && (forall l :: l in qps ==> all[l] == qps[l])
  {
    CatalogueDisjoint(quantiles, methods);
  }

  /**
   * The collect command's query map: the bytes, docs, latency and QPS maps
   * appended in that order to an empty map.
   */
  method CollectQueries() returns (queries: map<string, string>)
    ensures queries == BytesStoredQueries + DocsStoredQueries + LatencyQueries(Quantiles, Methods) + QpsQueries(Methods)
  {
    var qm := new QueryMap();
    EmptyMerge(BytesStoredQueries);
    qm.Append(BytesStoredQueries);
    qm.Append(DocsStoredQueries);
    qm.Append(LatencyQueries(Quantiles, Methods));
    qm.Append(QpsQueries(Methods));
    queries := qm.entries;
  }

  /**
   * In the catalogue itself the two quantiles have distinct percents, 50 and
   * 95, so each latency label maps to its own pair's query.
   */
  lemma CatalogueLatencyExact(i: nat, j: nat)
    requires i < |Quantiles| && j < |Methods|
    ensures var m, q, rpc := LatencyQueries(Quantiles, Methods), Quantiles[i], Methods[j];
      && LatencyLabel(rpc, q, "peer") in m && m[LatencyLabel(rpc, q, "peer")] == LatencyQuery(q, rpc, PeerLatencyGrouping)
      && LatencyLabel(rpc, q, "cluster") in m && m[LatencyLabel(rpc, q, "cluster")] == LatencyQuery(q, rpc, ClusterLatencyGrouping)
  {
    LatencyQueriesExact(Quantiles, Methods, i, j);
  }

  /** The catalogue's latency labels read as the collect command prints them. */
  lemma CatalogueLatencyLabels()
    ensures LatencyLabel("Put", 500000, "peer") == "Put.p50.peer"
    ensures LatencyLabel("Get", 950000, "cluster") == "Get.p95.cluster"
  {
    assert NatToString(50) == "50";
    assert NatToString(95) == "95";
  }
}
