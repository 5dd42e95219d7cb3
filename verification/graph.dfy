/**
 `GraphHandler.get`: reduce the award log to one weighted link per directed
 (giver, receiver) pair, number the profiles that take part, and emit the
 links whose two ends are numbered.
 */
module Graph {
  import opened Wrappers
  import opened Profiles
  import opened Awards

  /** A link between two node indices, weighted by the points that flowed. */
  datatype Link = Link(source: nat, target: nat, value: int)

  /** Nodes in index order (the display name is left to the identity resolver)
      and the set of links. */
  datatype Graph = Graph(nodes: seq<Member>, links: set<Link>)

  /** One pass of the accumulation loop: add award `k` to its pair's entry,
      starting the entry at zero when the pair is new. */
  function AddAward(acc: map<Pair, int>, k: Kudos): map<Pair, int> {
    var key := (k.userFrom, k.userTo);
    if key in acc then acc[key := acc[key] + k.amount] else acc[key := k.amount]
  }

  /** One pass keeps the accumulator equal to the per-pair sums of the awards seen. */
  lemma AddAwardSums(init: seq<Kudos>, k: Kudos, acc: map<Pair, int>)
    requires acc.Keys == PairsOf(init)
    requires forall p :: p in acc ==> acc[p] == PairSum(init, p)
    ensures AddAward(acc, k).Keys == PairsOf(init + [k])
    ensures forall p :: p in AddAward(acc, k) ==> AddAward(acc, k)[p] == PairSum(init + [k], p)
  {
    var log := init + [k];
    assert log[..|log| - 1] == init;
    AppendAward(init, k);
    var key := (k.userFrom, k.userTo);
    if key !in acc {
      PairSumOutside(init, key);
    }
  }

  /** The accumulation loop: one entry per directed pair, holding the summed amount. */
  function Aggregate(log: seq<Kudos>): (links: map<Pair, int>)
    ensures links.Keys == PairsOf(log)
    ensures forall p :: p in links ==> links[p] == PairSum(log, p)
    decreases |log|
  {
    if log == [] then map[]
    else
      var init, k := log[..|log| - 1], log[|log| - 1];
      assert log == init + [k];
      AddAwardSums(init, k, Aggregate(init));
      AddAward(Aggregate(init), k)
  }

  /** `x` is listed in `order` somewhere before `y`. */
  ghost predicate Before(order: seq<Member>, x: Member, y: Member) {
    exists a, b :: 0 <= a < b < |order| && order[a] == x && order[b] == y
  }

  /** Any two entries of `r` occur, in the same relative order, in `order`. */
  ghost predicate InOrder(r: seq<Member>, order: seq<Member>) {
    forall i, j :: 0 <= i < j < |r| ==> Before(order, r[i], r[j])
  }

  /** Listing one more member keeps every earlier "before". */
  lemma BeforeExtend(init: seq<Member>, m: Member, x: Member, y: Member)
    requires Before(init, x, y)
    ensures Before(init + [m], x, y)
  {
    var a, b :| 0 <= a < b < |init| && init[a] == x && init[b] == y;
    assert (init + [m])[a] == x && (init + [m])[b] == y;
  }

  /** Listing one more member keeps the relative order of what was selected. */
  lemma InOrderExtend(r: seq<Member>, init: seq<Member>, m: Member)
    requires InOrder(r, init)
    ensures InOrder(r, init + [m])
  {
    forall i, j | 0 <= i < j < |r|
      ensures Before(init + [m], r[i], r[j])
    {
      BeforeExtend(init, m, r[i], r[j]);
    }
  }

  /** Selecting the newly listed member puts it after everything selected before. */
  lemma InOrderAppend(r: seq<Member>, init: seq<Member>, m: Member)
    requires InOrder(r, init) && forall x :: x in r ==> x in init
    ensures InOrder(r + [m], init + [m])
  {
    var order, r' := init + [m], r + [m];
    InOrderExtend(r, init, m);
    forall i, j | 0 <= i < j < |r'|
      ensures Before(order, r'[i], r'[j])
    {
      if j < |r| {
        assert r'[i] == r[i] && r'[j] == r[j];
      } else {
        assert r[i] in init;
        var a :| 0 <= a < |init| && init[a] == r[i];
        assert order[a] == r'[i] && order[|order| - 1] == r'[j];
      }
    }
  }

  /** The members of `order` that are in `keep`, in the order of `order`. */
  function Select(order: seq<Member>, keep: set<Member>): (r: seq<Member>)
    ensures forall m :: m in r <==> m in order && m in keep
    ensures Distinct(order) ==> Distinct(r)
    ensures InOrder(r, order)
    decreases |order|
  {
    if order == [] then []
    else
      var init, m := order[..|order| - 1], order[|order| - 1];
      assert order == init + [m];
      var r := Select(init, keep);
      if m in keep then
        assert Distinct(order) ==> m !in init;
        InOrderAppend(r, init, m);
        r + [m]
      else
        InOrderExtend(r, init, m);
        r
  }

  /** Every emitted link joins two nodes along a pair some award connects, and
      carries that pair's summed amount. */
  ghost predicate LinksFaithful(g: Graph, log: seq<Kudos>) {
    forall l :: l in g.links ==>
      && l.source < |g.nodes| && l.target < |g.nodes|
      && (g.nodes[l.source], g.nodes[l.target]) in PairsOf(log)
      && l.value == PairSum(log, (g.nodes[l.source], g.nodes[l.target]))
  }

  /** Every pair some award connects whose two ends are nodes is emitted. */
  ghost predicate LinksComplete(g: Graph, log: seq<Kudos>) {
    forall i, j :: 0 <= i < |g.nodes| && 0 <= j < |g.nodes| && (g.nodes[i], g.nodes[j]) in PairsOf(log) ==>
      Link(i, j, PairSum(log, (g.nodes[i], g.nodes[j]))) in g.links
  }

  /** The relationship graph of store `s` and award log `log`. */
  ghost predicate GraphOf(s: Store, log: seq<Kudos>, g: Graph) {
    && g.nodes == Select(s.order, Endpoints(log))
    && LinksFaithful(g, log)
    && LinksComplete(g, log)
  }

  /** The numbering loop: walk the profiles in store order and give the next
      index to each member that took part. */
  method NumberNodes(order: seq<Member>, nodes: set<Member>) returns (names: seq<Member>, index: map<Member, nat>)
    requires Distinct(order)
    ensures names == Select(order, nodes)
    ensures forall m :: m in index <==> m in names
    ensures forall m :: m in index ==> index[m] < |names| && names[index[m]] == m
  {
    index := map[];
    names := [];
    var j := 0;
    while j < |order|
      invariant 0 <= j <= |order|
      invariant names == Select(order[..j], nodes)
      invariant forall m :: m in index <==> m in names
      invariant forall m :: m in index ==> index[m] < |names| && names[index[m]] == m
    {
      var m := order[j];
      assert order[..j + 1] == order[..j] + [m];
      if m in nodes {
        assert m !in order[..j];
        index := index[m := |names|];
        names := names + [m];
      }
      j := j + 1;
    }
    assert order[..|order|] == order;
  }

  /** The emitted links: one per aggregated pair whose two ends are numbered. */
  function Edges(links: map<Pair, int>, index: map<Member, nat>): set<Link> {
    set p | p in links && p.0 in index && p.1 in index :: Link(index[p.0], index[p.1], links[p])
  }

  /** Numbering maps each name to its position in `names`. */
  ghost predicate Numbers(names: seq<Member>, index: map<Member, nat>) {
    && (forall m :: m in index <==> m in names)
    && (forall m :: m in index ==> index[m] < |names| && names[index[m]] == m)
  }

  /** Every emitted link joins two numbered members some award connects, with
      the pair's total. */
  lemma EdgesFaithful(log: seq<Kudos>, names: seq<Member>, index: map<Member, nat>)
    requires Numbers(names, index)
    ensures LinksFaithful(Graph(names, Edges(Aggregate(log), index)), log)
  {
  }

  /** Every pair some award connects whose two ends are numbered is emitted. */
  lemma EdgesComplete(log: seq<Kudos>, names: seq<Member>, index: map<Member, nat>)
    requires Numbers(names, index) && Distinct(names)
    ensures LinksComplete(Graph(names, Edges(Aggregate(log), index)), log)
  {
    var links := Aggregate(log);
    forall a, b | 0 <= a < |names| && 0 <= b < |names| && (names[a], names[b]) in PairsOf(log)
      ensures Link(a, b, PairSum(log, (names[a], names[b]))) in Edges(links, index)
    {
      var p := (names[a], names[b]);
      assert names[a] in index && names[b] in index;
      assert index[names[a]] == a && index[names[b]] == b;
      assert p in links && p.0 in index && p.1 in index;
    }
  }

  /** The handler: aggregate, number the profiles of members that took part in
      store order, and keep the links whose two ends have a number. */
  method BuildGraph(s: Store, log: seq<Kudos>) returns (g: Graph)
    requires Valid(s)
    ensures GraphOf(s, log, g)
    ensures Distinct(g.nodes)
  {
    var links := Aggregate(log);
    var names, index := NumberNodes(s.order, Endpoints(log));
    g := Graph(names, Edges(links, index));
    EdgesFaithful(log, names, index);
    EdgesComplete(log, names, index);
  }

  /** Some emitted link joins the two ends of `p`. */
  ghost predicate HasLink(g: Graph, p: Pair) {
    exists l :: l in g.links && l.source < |g.nodes| && l.target < |g.nodes| &&
      g.nodes[l.source] == p.0 && g.nodes[l.target] == p.1
  }

  /** A pair's link is dropped exactly when one of its ends has no profile. */
  lemma DroppedExactlyWhenUnprofiled(s: Store, log: seq<Kudos>, g: Graph, p: Pair)
    requires Valid(s) && GraphOf(s, log, g) && p in PairsOf(log)
    ensures HasLink(g, p) <==> p.0 in s.profiles && p.1 in s.profiles
  {
  }

  /** When every member named in the log has a profile, which transfers
      guarantee, no link is dropped. */
  lemma NoLinkDroppedWhenClosed(s: Store, log: seq<Kudos>, g: Graph)
    requires Valid(s) && GraphOf(s, log, g) && Closed(s, log)
    ensures forall p :: p in PairsOf(log) ==> HasLink(g, p)
  {
    forall p | p in PairsOf(log)
      ensures HasLink(g, p)
    {
      PairEndpoints(log, p);
      DroppedExactlyWhenUnprofiled(s, log, g, p);
    }
  }

  // ----- the link key as the handler writes it -----

  /** The handler keys links by the text `giver-receiver`. */
  function TextKey(from: Member, to: Member): string {
    from + "-" + to
  }

  /** Reference total for a text key: the amounts of every award whose pair
      prints as that key, whichever pair it is. */
  function TextKeySum(log: seq<Kudos>, key: string): int
    decreases |log|
  {
    if log == [] then 0
    else
      var k := log[|log| - 1];
      TextKeySum(log[..|log| - 1], key) + (if TextKey(k.userFrom, k.userTo) == key then k.amount else 0)
  }

  /** A text key no award prints as accumulates nothing. */
  lemma {:induction false} TextKeySumOutside(log: seq<Kudos>, key: string)
    requires forall k :: k in log ==> TextKey(k.userFrom, k.userTo) != key
    ensures TextKeySum(log, key) == 0
    decreases |log|
  {
    if log != [] {
      var init := log[..|log| - 1];
      assert forall k :: k in init ==> k in log;
      TextKeySumOutside(init, key);
    }
  }

  /** Reference pair for a text key: the pair of the earliest award that
      prints as `key`, if any does. */
  function FirstPair(log: seq<Kudos>, key: string): Option<Pair>
    decreases |log|
  {
    if log == [] then None
    else
      var k := log[|log| - 1];
      var earlier := FirstPair(log[..|log| - 1], key);
      if earlier.Some? then earlier
      else if TextKey(k.userFrom, k.userTo) == key then Some((k.userFrom, k.userTo))
      else None
  }

  /** Award `i` is the earliest in `log` that prints as `key`. */
  ghost predicate EarliestWithKey(log: seq<Kudos>, key: string, i: int) {
    && 0 <= i < |log|
    && TextKey(log[i].userFrom, log[i].userTo) == key
    && forall j :: 0 <= j < i ==> TextKey(log[j].userFrom, log[j].userTo) != key
  }

  /** `FirstPair` finds exactly the pair of the earliest award printing as the
      key, and nothing when no award does. */
  lemma {:induction false} FirstPairIsEarliest(log: seq<Kudos>, key: string)
    ensures FirstPair(log, key).None? <==> forall k :: k in log ==> TextKey(k.userFrom, k.userTo) != key
    ensures FirstPair(log, key).Some? ==>
              exists i :: EarliestWithKey(log, key, i) && FirstPair(log, key).value == (log[i].userFrom, log[i].userTo)
    decreases |log|
  {
    if log != [] {
      var init, k := log[..|log| - 1], log[|log| - 1];
      assert log == init + [k];
      assert forall j :: j in log ==> j in init || j == k;
      assert forall j :: j in init ==> j in log;
      FirstPairIsEarliest(init, key);
      if FirstPair(init, key).Some? {
        var i :| EarliestWithKey(init, key, i) && FirstPair(init, key).value == (init[i].userFrom, init[i].userTo);
        assert log[i] == init[i];
        assert EarliestWithKey(log, key, i);
      } else if TextKey(k.userFrom, k.userTo) == key {
        assert forall j :: 0 <= j < |init| ==> init[j] in init;
        assert EarliestWithKey(log, key, |log| - 1);
      }
    }
  }

  /** The reference pair of a text key after one more award. */
  lemma FirstPairAppend(init: seq<Kudos>, k: Kudos, key: string)
    ensures FirstPair(init + [k], key)
              == if FirstPair(init, key).Some? then FirstPair(init, key)
                 else if TextKey(k.userFrom, k.userTo) == key then Some((k.userFrom, k.userTo))
                 else None
  {
    assert (init + [k])[..|init|] == init;
  }

  /** `links` is the text-keyed accumulation of `log`: every award lands under
      its text key, and each entry exists only for a key some award prints as,
      holds the pair of the earliest award printing as that key, and holds the
      total of every award printing as that key. */
  ghost predicate TextKeyed(links: map<string, (Member, Member, int)>, log: seq<Kudos>) {
    && (forall k :: k in log ==> TextKey(k.userFrom, k.userTo) in links)
    && (forall key :: key in links ==>
          && TextKey(links[key].0, links[key].1) == key
          && (exists k :: k in log && TextKey(k.userFrom, k.userTo) == key)
          && FirstPair(log, key) == Some((links[key].0, links[key].1))
          && links[key].2 == TextKeySum(log, key))
  }

  /** One pass of the loop as written: open an entry with this award's pair
      under its text key if there is none, then add the amount. */
  function AddByTextKey(acc: map<string, (Member, Member, int)>, k: Kudos): map<string, (Member, Member, int)> {
    var key := TextKey(k.userFrom, k.userTo);
    if key in acc then acc[key := (acc[key].0, acc[key].1, acc[key].2 + k.amount)]
    else acc[key := (k.userFrom, k.userTo, k.amount)]
  }

  /** The reference total of a text key after one more award. */
  lemma TextKeySumAppend(init: seq<Kudos>, k: Kudos, key: string)
    ensures TextKeySum(init + [k], key)
              == TextKeySum(init, key) + (if TextKey(k.userFrom, k.userTo) == key then k.amount else 0)
  {
    assert (init + [k])[..|init|] == init;
  }

  /** One pass keeps a single entry faithful to the awards printing as its key. */
  lemma AddByTextKeyEntry(init: seq<Kudos>, k: Kudos, acc: map<string, (Member, Member, int)>, key': string)
    requires TextKeyed(acc, init) && key' in AddByTextKey(acc, k)
    ensures var r, log := AddByTextKey(acc, k), init + [k];
            && TextKey(r[key'].0, r[key'].1) == key'
            && (exists j :: j in log && TextKey(j.userFrom, j.userTo) == key')
            && FirstPair(log, key') == Some((r[key'].0, r[key'].1))
            && r[key'].2 == TextKeySum(log, key')
  {
    var log := init + [k];
    var key := TextKey(k.userFrom, k.userTo);
    TextKeySumAppend(init, k, key');
    FirstPairAppend(init, k, key');
    if key' == key {
      assert k in log;
      if key !in acc {
        assert forall j :: j in init ==> TextKey(j.userFrom, j.userTo) != key;
        TextKeySumOutside(init, key);
        FirstPairIsEarliest(init, key);
      }
    } else {
      var j :| j in init && TextKey(j.userFrom, j.userTo) == key';
      assert j in log;
    }
  }

  /** After one pass every award seen so far has an entry under its key. */
  lemma AddByTextKeyCovers(init: seq<Kudos>, k: Kudos, acc: map<string, (Member, Member, int)>)
    requires forall j :: j in init ==> TextKey(j.userFrom, j.userTo) in acc
    ensures forall j :: j in init + [k] ==> TextKey(j.userFrom, j.userTo) in AddByTextKey(acc, k)
  {
    forall j | j in init + [k]
      ensures TextKey(j.userFrom, j.userTo) in AddByTextKey(acc, k)
    {
      if j != k {
        assert j in init;
      }
    }
  }

  /** One pass keeps the accumulator text-keyed and never changes the pair an
      entry already holds. */
  lemma AddByTextKeySums(init: seq<Kudos>, k: Kudos, acc: map<string, (Member, Member, int)>)
    requires TextKeyed(acc, init)
    ensures TextKeyed(AddByTextKey(acc, k), init + [k])
    ensures forall key :: key in acc ==>
              AddByTextKey(acc, k)[key].0 == acc[key].0 && AddByTextKey(acc, k)[key].1 == acc[key].1
  {
    var log := init + [k];
    var r := AddByTextKey(acc, k);
    AddByTextKeyCovers(init, k, acc);
    forall key' | key' in r
      ensures TextKey(r[key'].0, r[key'].1) == key'
      ensures exists j :: j in log && TextKey(j.userFrom, j.userTo) == key'
      ensures FirstPair(log, key') == Some((r[key'].0, r[key'].1))
      ensures r[key'].2 == TextKeySum(log, key')
    {
      AddByTextKeyEntry(init, k, acc, key');
    }
  }

  /** The accumulation loop as written: keyed by `TextKey`, each entry holding
      the pair first seen under that key and the running total of every award
      printing as that key. */
  function AggregateByTextKey(log: seq<Kudos>): (links: map<string, (Member, Member, int)>)
    ensures TextKeyed(links, log)
    decreases |log|
  {
    if log == [] then map[]
    else
      var init, k := log[..|log| - 1], log[|log| - 1];
      assert log == init + [k];
      AddByTextKeySums(init, k, AggregateByTextKey(init));
      AddByTextKey(AggregateByTextKey(init), k)
  }

  /** Two different pairs can share a text key: `a` -> `b-c` and `a-b` -> `c`
      both become "a-b-c", so the second pair gets no entry of its own and its
      points are added to the first pair's link. Keyed by pair, they stay apart. */
  lemma TextKeyMergesDistinctPairs()
    ensures var log := [Kudos("a", "b-c", 1, ""), Kudos("a-b", "c", 2, "")];
            && PairsOf(log) == {("a", "b-c"), ("a-b", "c")}
            && AggregateByTextKey(log) == map["a-b-c" := ("a", "b-c", 3)]
            && Aggregate(log) == map[("a", "b-c") := 1, ("a-b", "c") := 2]
  {
    var k1, k2 := Kudos("a", "b-c", 1, ""), Kudos("a-b", "c", 2, "");
    var log := [k1, k2];
    assert log[..1] == [k1];
    assert [k1][..0] == [];
    assert TextKey("a", "b-c") == "a-b-c" == TextKey("a-b", "c");
    assert ("a", "b-c") != ("a-b", "c") by { assert "a" != "a-b"; }
    assert PairsOf(log) == {("a", "b-c"), ("a-b", "c")} by {
      assert forall k :: k in log <==> k == k1 || k == k2;
    }
  }
}
