/** The skip list under a memtable (db/skiplist.h): its searches, Insert with the state after every
    pointer store, and readers that run between those stores without a lock.

    Nodes live in an arena and are never freed: a node is named by its place there, the head by 0. */
module SkipLists {
  import opened Format

  const MAX_HEIGHT: nat := 12

  datatype Node = Node(entry: Entry, next: seq<Option<nat>>)

  /** What memory holds at one moment; `levels` names the nodes each level's pointers lead through. */
  datatype Moment = Moment(nodes: seq<Node>, maxHeight: nat, levels: seq<seq<nat>>)

  /** The node that stands before place `p` of a level. */
  function NodeAt(ids: seq<nat>, p: nat): nat
    requires p <= |ids|
  {
    if p == 0 then 0 else ids[p - 1]
  }

  function After(ids: seq<nat>, p: nat): Option<nat>
    requires p <= |ids|
  {
    if p < |ids| then Some(ids[p]) else None
  }

  ghost predicate InRange(nodes: seq<Node>, ids: seq<nat>) {
    forall i :: 0 <= i < |ids| ==> ids[i] < |nodes|
  }

  ghost predicate InLevel(nodes: seq<Node>, l: nat, ids: seq<nat>) {
    && |nodes| > 0 && l < |nodes[0].next|
    && forall i :: 0 <= i < |ids| ==> 0 < ids[i] < |nodes| && l < |nodes[ids[i]].next|
  }

  ghost predicate Linked(nodes: seq<Node>, l: nat, ids: seq<nat>)
    requires InLevel(nodes, l, ids)
  {
    forall p: nat :: p <= |ids| ==> nodes[NodeAt(ids, p)].next[l] == After(ids, p)
  }

  ghost predicate Ascending(nodes: seq<Node>, ids: seq<nat>)
    requires InRange(nodes, ids)
  {
    forall i, j :: 0 <= i < j < |ids| ==> Less(nodes[ids[i]].entry.key, nodes[ids[j]].entry.key)
  }

  /** The pointers of level `l` lead from the head through exactly these nodes, in key order. */
  ghost predicate LevelOk(nodes: seq<Node>, l: nat, ids: seq<nat>) {
    InLevel(nodes, l, ids) && Linked(nodes, l, ids) && Ascending(nodes, ids)
  }

  ghost predicate Within(upper: seq<nat>, lower: seq<nat>) {
    forall a :: a in upper ==> a in lower
  }

  /** Every level is a sorted sublist of the one below. */
  ghost predicate LevelsOk(m: Moment) {
    && |m.levels| == MAX_HEIGHT && 1 <= m.maxHeight <= MAX_HEIGHT
    && (forall l :: 0 <= l < MAX_HEIGHT ==> LevelOk(m.nodes, l, m.levels[l]))
    && (forall l, u | 0 <= l < MAX_HEIGHT && u == l + 1 && u < MAX_HEIGHT :: Within(m.levels[u], m.levels[l]))
    && (forall l :: m.maxHeight <= l < MAX_HEIGHT ==> m.levels[l] == [])
  }

  /** The entries of a level, in order. */
  ghost function EntriesAt(nodes: seq<Node>, ids: seq<nat>): (es: seq<Entry>)
    requires InRange(nodes, ids)
    ensures |es| == |ids| && forall i :: 0 <= i < |ids| ==> es[i] == nodes[ids[i]].entry
  {
    seq(|ids|, i requires 0 <= i < |ids| => nodes[ids[i]].entry)
  }

  /** The plain sorted list the skip list stands for. */
  ghost function EntriesOf(m: Moment): seq<Entry>
    requires LevelsOk(m)
  {
    assert LevelOk(m.nodes, 0, m.levels[0]);
    EntriesAt(m.nodes, m.levels[0])
  }

  ghost predicate AllLess(es: seq<Entry>) {
    forall i, j :: 0 <= i < j < |es| ==> Less(es[i].key, es[j].key)
  }

  // ---------------------------------------------------------------- searching one level

  /** A search for `key` may stand on this node of this level. */
  ghost predicate Stands(nodes: seq<Node>, ids: seq<nat>, key: IKey, x: nat) {
    x == 0 || (x in ids && x < |nodes| && Less(nodes[x].entry.key, key))
  }

  /** A search for `key` on this level ends after `p` nodes. */
  ghost predicate StopsAt(nodes: seq<Node>, ids: seq<nat>, key: IKey, p: nat) {
    && p <= |ids| && InRange(nodes, ids)
    && (forall i :: 0 <= i < p ==> Less(nodes[ids[i]].entry.key, key))
    && (p < |ids| ==> !Less(nodes[ids[p]].entry.key, key))
  }

  ghost function Position(ids: seq<nat>, x: nat): (p: nat)
    requires x == 0 || x in ids
    ensures p <= |ids| && NodeAt(ids, p) == x
  {
    if x == 0 then 0 else var i :| 0 <= i < |ids| && ids[i] == x; i + 1
  }

  lemma PositionUnique(nodes: seq<Node>, l: nat, ids: seq<nat>, p: nat)
    requires LevelOk(nodes, l, ids) && p <= |ids|
    ensures NodeAt(ids, p) == 0 || NodeAt(ids, p) in ids
    ensures Position(ids, NodeAt(ids, p)) == p
  {
    if p > 0 {
      var q := Position(ids, ids[p - 1]);
      assert ids[p - 1] in ids;
    }
  }

  /** KeyIsAfterNode: a missing node counts as infinite. */
  predicate KeyIsAfterNode(nodes: seq<Node>, key: IKey, n: Option<nat>)
    requires n.Some? ==> n.value < |nodes|
  {
    n.Some? && Less(nodes[n.value].entry.key, key)
  }

  /** One load of a search: either the search may move on to the node it leads to, or it has
      found its place on the level. */
  lemma LoadNext(nodes: seq<Node>, l: nat, ids: seq<nat>, key: IKey, x: nat)
    requires LevelOk(nodes, l, ids) && Stands(nodes, ids, key, x)
    ensures x < |nodes| && l < |nodes[x].next|
    ensures nodes[x].next[l] == After(ids, Position(ids, x))
    ensures nodes[x].next[l].Some? ==> nodes[x].next[l].value in ids && nodes[x].next[l].value < |nodes|
    ensures nodes[x].next[l].Some? ==> Position(ids, nodes[x].next[l].value) == Position(ids, x) + 1
    ensures KeyIsAfterNode(nodes, key, nodes[x].next[l]) ==> Stands(nodes, ids, key, nodes[x].next[l].value)
    ensures !KeyIsAfterNode(nodes, key, nodes[x].next[l]) ==> StopsAt(nodes, ids, key, Position(ids, x))
  {
    var p := Position(ids, x);
    if p < |ids| {
      PositionUnique(nodes, l, ids, p + 1);
    }
    forall i | 0 <= i < p ensures Less(nodes[ids[i]].entry.key, key) {
      assert NodeAt(ids, p) == ids[p - 1] == x;
    }
  }

  /** At the bottom, a search ends where a seek in the sorted list lands. */
  lemma StopsAtSeek(m: Moment, key: IKey, p: nat)
    requires LevelsOk(m) && StopsAt(m.nodes, m.levels[0], key, p)
    ensures SeekIndex(EntriesOf(m), key) == p
  {
    var es := EntriesOf(m);
    var s := SeekIndex(es, key);
    assert s < |es| ==> es[s] == m.nodes[m.levels[0][s]].entry;
    assert p < |es| ==> es[p] == m.nodes[m.levels[0][p]].entry;
  }

  lemma EntriesAscend(m: Moment)
    requires LevelsOk(m)
    ensures AllLess(EntriesOf(m))
  {
    assert LevelOk(m.nodes, 0, m.levels[0]);
  }

  /** What a search leaves behind: where it stopped on each of the lowest `n` levels. */
  ghost predicate Places(m: Moment, key: IKey, n: nat, prev: seq<nat>, at: seq<nat>) {
    && |prev| == |at| == n <= |m.levels|
    && forall l :: 0 <= l < n ==> StopsAt(m.nodes, m.levels[l], key, at[l]) && prev[l] == NodeAt(m.levels[l], at[l])
  }

  lemma {:induction false} WithinBottom(m: Moment, l: nat)
    requires LevelsOk(m) && l < MAX_HEIGHT
    ensures Within(m.levels[l], m.levels[0])
  {
    if l > 0 {
      WithinBottom(m, l - 1);
      assert Within(m.levels[l], m.levels[l - 1]);
    }
  }

  // ---------------------------------------------------------------- readers beside a writer

  /** A search between two of its loads; it is lost if it follows a pointer that leads nowhere. */
  datatype Search = Searching(node: nat, level: nat) | Found(result: Option<nat>) | Lost

  ghost predicate SearchOk(m: Moment, key: IKey, r: Search)
    requires LevelsOk(m)
  {
    r.Searching? && r.level < MAX_HEIGHT && Stands(m.nodes, m.levels[r.level], key, r.node)
  }

  /** One round of FindGreaterOrEqual on whatever memory holds. */
  function SearchStep(nodes: seq<Node>, key: IKey, r: Search): Search {
    if !r.Searching? then r
    else if r.node >= |nodes| || r.level >= |nodes[r.node].next| then Lost
    else
      var next := nodes[r.node].next[r.level];
      if next.Some? && next.value >= |nodes| then Lost
      else if KeyIsAfterNode(nodes, key, next) then Searching(next.value, r.level)
      else if r.level == 0 then Found(next)
      else Searching(r.node, r.level - 1)
  }

  /** A later moment: the writer may have appended nodes and linked some in. */
  ghost predicate Grown(a: Moment, b: Moment) {
    && LevelsOk(a) && LevelsOk(b)
    && |a.nodes| <= |b.nodes| && (forall i :: 0 <= i < |a.nodes| ==> b.nodes[i].entry == a.nodes[i].entry)
    && forall l :: 0 <= l < MAX_HEIGHT ==> Within(a.levels[l], b.levels[l])
  }

  lemma GrownKeepsSearch(a: Moment, b: Moment, key: IKey, r: Search)
    requires Grown(a, b) && SearchOk(a, key, r)
    ensures SearchOk(b, key, r)
  {
    assert Within(a.levels[r.level], b.levels[r.level]);
  }

  /** A finished search has what a seek in the plain sorted list lands on. */
  ghost predicate Answers(m: Moment, key: IKey, found: Option<nat>)
    requires LevelsOk(m)
  {
    var at := SeekIndex(EntriesOf(m), key);
    assert LevelOk(m.nodes, 0, m.levels[0]);
    found == After(m.levels[0], at)
  }

  lemma SearchStepOk(m: Moment, key: IKey, r: Search)
    requires LevelsOk(m) && SearchOk(m, key, r)
    ensures var s := SearchStep(m.nodes, key, r); SearchOk(m, key, s) || (s.Found? && Answers(m, key, s.result))
  {
    var ids := m.levels[r.level];
    assert LevelOk(m.nodes, r.level, ids);
    LoadNext(m.nodes, r.level, ids, key, r.node);
    if !KeyIsAfterNode(m.nodes, key, m.nodes[r.node].next[r.level]) {
      if r.level == 0 {
        StopsAtSeek(m, key, Position(ids, r.node));
      } else {
        assert Within(ids, m.levels[r.level - 1]);
      }
    }
  }

  /** The list as the writer goes on extending it. */
  ghost predicate History(history: seq<Moment>) {
    && |history| > 0 && LevelsOk(history[0])
    && forall i, j | 0 <= i && j == i + 1 && j < |history| :: Grown(history[i], history[j])
  }

  /** A reader takes one round at each moment, from the head and any height. */
  ghost predicate RunsThrough(history: seq<Moment>, key: IKey, rounds: seq<Search>) {
    && History(history) && |rounds| == |history| + 1
    && rounds[0].Searching? && rounds[0].node == 0 && rounds[0].level < MAX_HEIGHT
    && forall i, j | 0 <= i < |history| && j == i + 1 :: rounds[j] == SearchStep(history[i].nodes, key, rounds[i])
  }

  lemma HistoryOk(history: seq<Moment>, n: nat)
    requires History(history) && n < |history|
    ensures LevelsOk(history[n])
  {
    assert n > 0 ==> Grown(history[n - 1], history[n]);
  }

  lemma {:induction false} SearchStaysOk(history: seq<Moment>, key: IKey, rounds: seq<Search>, n: nat)
    requires RunsThrough(history, key, rounds) && n < |history| && rounds[n].Searching?
    ensures LevelsOk(history[n]) && SearchOk(history[n], key, rounds[n])
  {
    HistoryOk(history, n);
    if n > 0 {
      var m := n - 1;
      assert rounds[n] == SearchStep(history[m].nodes, key, rounds[m]);
      SearchStaysOk(history, key, rounds, m);
      SearchStepOk(history[m], key, rounds[m]);
      assert Grown(history[m], history[n]);
      GrownKeepsSearch(history[m], history[n], key, rounds[n]);
    }
  }

  /** A search that runs without a lock while the writer inserts follows no dangling pointer, and
      its answer is what a seek in the plain sorted list gives at the moment of its last load. */
  lemma LockFreeSearch(history: seq<Moment>, key: IKey, rounds: seq<Search>, n: nat)
    requires RunsThrough(history, key, rounds) && n < |history| && rounds[n].Searching?
    ensures LevelsOk(history[n])
    ensures rounds[n + 1].Searching? || (rounds[n + 1].Found? && Answers(history[n], key, rounds[n + 1].result))
  {
    SearchStaysOk(history, key, rounds, n);
    SearchStepOk(history[n], key, rounds[n]);
    var next := n + 1;
    assert rounds[next] == SearchStep(history[n].nodes, key, rounds[n]);
  }

  // ---------------------------------------------------------------- pointer stores

  /** SetNext. */
  function WithNext(nodes: seq<Node>, y: nat, l: nat, to: Option<nat>): seq<Node>
    requires y < |nodes| && l < |nodes[y].next|
  {
    nodes[y := nodes[y].(next := nodes[y].next[l := to])]
  }

  /** A store at one level leaves the others as they are. */
  lemma OtherLevel(nodes: seq<Node>, y: nat, l: nat, to: Option<nat>, k: nat, ids: seq<nat>)
    requires y < |nodes| && l < |nodes[y].next| && LevelOk(nodes, k, ids)
    requires k != l || (y != 0 && y !in ids)
    ensures LevelOk(WithNext(nodes, y, l, to), k, ids)
  {
    var after := WithNext(nodes, y, l, to);
    forall i | 0 <= i < |nodes|
      ensures after[i].entry == nodes[i].entry && |after[i].next| == |nodes[i].next|
      ensures (i != y || k != l) && k < |nodes[i].next| ==> after[i].next[k] == nodes[i].next[k]
    {
    }
    assert forall p: nat :: p <= |ids| && p > 0 ==> NodeAt(ids, p) in ids;
  }

  function Spliced(ids: seq<nat>, p: nat, x: nat): seq<nat>
    requires p <= |ids|
  {
    ids[..p] + [x] + ids[p..]
  }

  /** The node may go in before place `p`. */
  ghost predicate Fits(nodes: seq<Node>, ids: seq<nat>, p: nat, x: nat) {
    && x < |nodes| && x != 0 && x !in ids && StopsAt(nodes, ids, nodes[x].entry.key, p)
    && (p < |ids| ==> Less(nodes[x].entry.key, nodes[ids[p]].entry.key))
  }

  lemma SpliceAscends(nodes: seq<Node>, ids: seq<nat>, p: nat, x: nat)
    requires Fits(nodes, ids, p, x) && Ascending(nodes, ids)
    ensures forall a :: a in Spliced(ids, p, x) <==> a in ids || a == x
    ensures InRange(nodes, Spliced(ids, p, x)) && Ascending(nodes, Spliced(ids, p, x))
  {
    hide Less;
    var more := Spliced(ids, p, x);
    assert ids == ids[..p] + ids[p..];
    assert InRange(nodes, more);
    forall i, j | 0 <= i < j < |more| ensures Less(nodes[more[i]].entry.key, nodes[more[j]].entry.key) {
      SplicePair(nodes, ids, p, x, i, j);
    }
  }

  lemma SplicePair(nodes: seq<Node>, ids: seq<nat>, p: nat, x: nat, i: nat, j: nat)
    requires Fits(nodes, ids, p, x) && Ascending(nodes, ids) && i < j <= |ids| && InRange(nodes, Spliced(ids, p, x))
    ensures var more := Spliced(ids, p, x); Less(nodes[more[i]].entry.key, nodes[more[j]].entry.key)
  {
    hide Less;
    var more := Spliced(ids, p, x);
    if i == p {
      AfterFits(nodes, ids, p, x, j - 1);
      assert more[j] == ids[j - 1];
    } else if j == p {
      assert more[i] == ids[i];
    } else {
      assert more[i] == ids[if i < p then i else i - 1] && more[j] == ids[if j < p then j else j - 1];
    }
  }

  lemma AfterFits(nodes: seq<Node>, ids: seq<nat>, p: nat, x: nat, j: nat)
    requires Fits(nodes, ids, p, x) && Ascending(nodes, ids) && p <= j < |ids|
    ensures Less(nodes[x].entry.key, nodes[ids[j]].entry.key)
  {
    assert p < j ==> Less(nodes[ids[p]].entry.key, nodes[ids[j]].entry.key);
  }

  /** Publishing the new node in its predecessor. */
  lemma SpliceLinks(nodes: seq<Node>, l: nat, ids: seq<nat>, p: nat, x: nat)
    requires LevelOk(nodes, l, ids) && Fits(nodes, ids, p, x)
    requires l < |nodes[x].next| && nodes[x].next[l] == After(ids, p)
    ensures NodeAt(ids, p) < |nodes| && l < |nodes[NodeAt(ids, p)].next|
    ensures LevelOk(WithNext(nodes, NodeAt(ids, p), l, Some(x)), l, Spliced(ids, p, x))
  {
    var y := NodeAt(ids, p);
    assert p > 0 ==> y in ids;
    var after, more := WithNext(nodes, y, l, Some(x)), Spliced(ids, p, x);
    SpliceAscends(nodes, ids, p, x);
    forall i | 0 <= i < |nodes| ensures after[i].entry == nodes[i].entry && |after[i].next| == |nodes[i].next| {}
    assert InLevel(after, l, more);
    forall q: nat | q <= |more| ensures after[NodeAt(more, q)].next[l] == After(more, q) {
      LinkAt(nodes, l, ids, p, x, q);
    }
  }

  lemma LinkAt(nodes: seq<Node>, l: nat, ids: seq<nat>, p: nat, x: nat, q: nat)
    requires LevelOk(nodes, l, ids) && Fits(nodes, ids, p, x) && q <= |ids| + 1
    requires l < |nodes[x].next| && nodes[x].next[l] == After(ids, p)
    requires NodeAt(ids, p) < |nodes| && l < |nodes[NodeAt(ids, p)].next|
    requires NodeAt(Spliced(ids, p, x), q) < |nodes| && l < |nodes[NodeAt(Spliced(ids, p, x), q)].next|
    ensures WithNext(nodes, NodeAt(ids, p), l, Some(x))[NodeAt(Spliced(ids, p, x), q)].next[l] == After(Spliced(ids, p, x), q)
  {
    hide Less;
    var more := Spliced(ids, p, x);
    if q < p {
      PositionUnique(nodes, l, ids, p);
      PositionUnique(nodes, l, ids, q);
      assert NodeAt(more, q) == NodeAt(ids, q) && After(more, q) == After(ids, q);
    } else if q == p {
      assert NodeAt(more, q) == NodeAt(ids, q);
    } else if q == p + 1 {
      assert NodeAt(more, q) == x && After(more, q) == After(ids, p);
      assert p > 0 ==> NodeAt(ids, p) in ids;
    } else {
      PositionUnique(nodes, l, ids, p);
      PositionUnique(nodes, l, ids, q - 1);
      assert NodeAt(more, q) == NodeAt(ids, q - 1) && After(more, q) == After(ids, q - 1);
    }
  }

  // ---------------------------------------------------------------- the stores of an insert

  lemma Raise(m: Moment, height: nat)
    requires LevelsOk(m) && m.maxHeight < height <= MAX_HEIGHT
    ensures Grown(m, m.(maxHeight := height))
  {
  }

  /** A node nobody points to yet, whatever its own pointers hold. */
  lemma Append(m: Moment, node: Node)
    requires LevelsOk(m)
    ensures Grown(m, m.(nodes := m.nodes + [node]))
    ensures forall l :: 0 <= l < MAX_HEIGHT ==> |m.nodes| !in m.levels[l]
  {
    var after := m.nodes + [node];
    forall l | 0 <= l < MAX_HEIGHT ensures LevelOk(after, l, m.levels[l]) && |m.nodes| !in m.levels[l] {
      var ids := m.levels[l];
      assert LevelOk(m.nodes, l, ids);
      assert forall p: nat :: p <= |ids| ==> NodeAt(ids, p) < |m.nodes|;
    }
  }

  /** A store in a node that is not yet on the level. */
  lemma StoreUnlinked(m: Moment, y: nat, l: nat, to: Option<nat>)
    requires LevelsOk(m) && l < MAX_HEIGHT && 0 < y < |m.nodes| && l < |m.nodes[y].next| && y !in m.levels[l]
    ensures Grown(m, m.(nodes := WithNext(m.nodes, y, l, to)))
  {
    forall k | 0 <= k < MAX_HEIGHT ensures LevelOk(WithNext(m.nodes, y, l, to), k, m.levels[k]) {
      OtherLevel(m.nodes, y, l, to, k, m.levels[k]);
    }
  }

  ghost function Published(m: Moment, l: nat, p: nat, x: nat): Moment
    requires l < |m.levels| && p <= |m.levels[l]|
    requires NodeAt(m.levels[l], p) < |m.nodes| && l < |m.nodes[NodeAt(m.levels[l], p)].next|
  {
    m.(nodes := WithNext(m.nodes, NodeAt(m.levels[l], p), l, Some(x)), levels := m.levels[l := Spliced(m.levels[l], p, x)])
  }

  /** The store that makes a node part of a level. */
  lemma Publish(m: Moment, l: nat, p: nat, x: nat)
    requires LevelsOk(m) && l < m.maxHeight && Fits(m.nodes, m.levels[l], p, x)
    requires l < |m.nodes[x].next| && m.nodes[x].next[l] == After(m.levels[l], p)
    requires l > 0 ==> x in m.levels[l - 1]
    ensures NodeAt(m.levels[l], p) < |m.nodes| && l < |m.nodes[NodeAt(m.levels[l], p)].next|
    ensures Grown(m, Published(m, l, p, x))
    ensures x in Published(m, l, p, x).levels[l]
  {
    var ids, y := m.levels[l], NodeAt(m.levels[l], p);
    assert LevelOk(m.nodes, l, ids);
    SpliceLinks(m.nodes, l, ids, p, x);
    SpliceAscends(m.nodes, ids, p, x);
    var after := Published(m, l, p, x);
    forall k | 0 <= k < MAX_HEIGHT ensures LevelOk(after.nodes, k, after.levels[k]) && Within(m.levels[k], after.levels[k]) {
      if k != l {
        OtherLevel(m.nodes, y, l, Some(x), k, m.levels[k]);
      }
    }
    forall k, u | 0 <= k < MAX_HEIGHT && u == k + 1 && u < MAX_HEIGHT ensures Within(after.levels[u], after.levels[k]) {
      assert Within(m.levels[u], m.levels[k]);
    }
  }

  /** The new node is on the levels below `i` and has its place on those from `i` up to its height. */
  ghost predicate Pending(m: Moment, x: nat, height: nat, prev: seq<nat>, at: seq<nat>, i: nat) {
    && |m.levels| == MAX_HEIGHT && i <= height <= MAX_HEIGHT && |prev| >= height && |at| >= height
    && x < |m.nodes| && |m.nodes[x].next| == height
    && (forall l :: i <= l < height ==> Fits(m.nodes, m.levels[l], at[l], x) && prev[l] == NodeAt(m.levels[l], at[l]))
    && (forall l :: 0 <= l < i ==> x in m.levels[l])
  }

  lemma FitsKept(before: seq<Node>, after: seq<Node>, ids: seq<nat>, p: nat, x: nat)
    requires Fits(before, ids, p, x) && |before| == |after|
    requires forall k :: 0 <= k < |before| ==> after[k].entry == before[k].entry
    ensures Fits(after, ids, p, x)
  {
  }

  lemma PendingStore(m: Moment, x: nat, height: nat, prev: seq<nat>, at: seq<nat>, i: nat, y: nat, l: nat, to: Option<nat>)
    requires Pending(m, x, height, prev, at, i) && y < |m.nodes| && l < |m.nodes[y].next|
    ensures Pending(m.(nodes := WithNext(m.nodes, y, l, to)), x, height, prev, at, i)
  {
    var after := WithNext(m.nodes, y, l, to);
    forall k | i <= k < height ensures Fits(after, m.levels[k], at[k], x) {
      FitsKept(m.nodes, after, m.levels[k], at[k], x);
    }
  }

  lemma PendingPublish(m: Moment, x: nat, height: nat, prev: seq<nat>, at: seq<nat>, i: nat)
    requires Pending(m, x, height, prev, at, i) && i < height
    requires prev[i] < |m.nodes| && i < |m.nodes[prev[i]].next|
    ensures Pending(Published(m, i, at[i], x), x, height, prev, at, i + 1)
  {
    PendingStore(m, x, height, prev, at, i, prev[i], i, Some(x));
    var after := Published(m, i, at[i], x);
    assert forall k :: 0 <= k < MAX_HEIGHT && k != i ==> after.levels[k] == m.levels[k];
    assert Spliced(m.levels[i], at[i], x)[at[i]] == x;
  }

  /** Nothing in the list compares equal to the key. */
  ghost predicate Absent(es: seq<Entry>, key: IKey) {
    forall e :: e in es ==> Less(e.key, key) || Less(key, e.key)
  }

  lemma FitsOnLevel(m: Moment, node: Node, l: nat, p: nat)
    requires LevelsOk(m) && l < MAX_HEIGHT && Absent(EntriesOf(m), node.entry.key)
    requires StopsAt(m.nodes, m.levels[l], node.entry.key, p)
    ensures Fits(m.nodes + [node], m.levels[l], p, |m.nodes|)
  {
    var ids := m.levels[l];
    assert LevelOk(m.nodes, l, ids) && LevelOk(m.nodes, 0, m.levels[0]);
    WithinBottom(m, l);
    if p < |ids| {
      assert ids[p] in ids;
      var i :| 0 <= i < |m.levels[0]| && m.levels[0][i] == ids[p];
      assert EntriesOf(m)[i] == m.nodes[ids[p]].entry;
    }
  }

  lemma EntriesSpliced(before: Moment, after: Moment, p: nat, x: nat)
    requires LevelsOk(before) && LevelsOk(after) && |before.nodes| <= x < |after.nodes|
    requires forall k :: 0 <= k < |before.nodes| ==> after.nodes[k].entry == before.nodes[k].entry
    requires p <= |before.levels[0]| && after.levels[0] == Spliced(before.levels[0], p, x)
    ensures EntriesOf(after) == EntriesOf(before)[..p] + [after.nodes[x].entry] + EntriesOf(before)[p..]
  {
    var ids, more := before.levels[0], after.levels[0];
    assert LevelOk(before.nodes, 0, ids) && LevelOk(after.nodes, 0, more);
    assert forall i :: 0 <= i < |more| ==> more[i] == if i < p then ids[i] else if i == p then x else ids[i - 1];
    hide Less;
    var es := EntriesOf(before)[..p] + [after.nodes[x].entry] + EntriesOf(before)[p..];
    forall i | 0 <= i < |more| ensures EntriesOf(after)[i] == es[i] {
      assert EntriesOf(after)[i] == after.nodes[more[i]].entry;
    }
  }

  /** After the search, and with the head standing in for levels above, the new node has its places. */
  lemma PlacesFound(m: Moment, node: Node, height: nat, prev: seq<nat>, at: seq<nat>)
    requires LevelsOk(m) && Absent(EntriesOf(m), node.entry.key) && height <= MAX_HEIGHT && |node.next| == height
    requires height <= |prev| && Places(m, node.entry.key, |prev|, prev, at)
    ensures Pending(m.(nodes := m.nodes + [node]), |m.nodes|, height, prev, at, 0)
  {
    forall l | 0 <= l < height ensures Fits(m.nodes + [node], m.levels[l], at[l], |m.nodes|) {
      FitsOnLevel(m, node, l, at[l]);
    }
  }

  /** The levels above those in use are empty: a search for anything stops at the head. */
  lemma HeadAbove(m: Moment, key: IKey, height: nat, prev: seq<nat>, at: seq<nat>)
    requires LevelsOk(m) && m.maxHeight < height <= MAX_HEIGHT && Places(m, key, m.maxHeight, prev, at)
    ensures var more := seq(height - m.maxHeight, _ => 0); Places(m.(maxHeight := height), key, height, prev + more, at + more)
  {
  }

  /** The node before the new one's place holds the pointer the new one takes over. */
  lemma MayLink(m: Moment, x: nat, height: nat, prev: seq<nat>, at: seq<nat>, i: nat)
    requires LevelsOk(m) && Pending(m, x, height, prev, at, i) && i < height
    ensures x != 0 && x !in m.levels[i] && at[i] <= |m.levels[i]|
    ensures prev[i] == NodeAt(m.levels[i], at[i]) && prev[i] < |m.nodes| && prev[i] != x && i < |m.nodes[prev[i]].next|
    ensures m.nodes[prev[i]].next[i] == After(m.levels[i], at[i])
  {
    assert LevelOk(m.nodes, i, m.levels[i]);
    assert Fits(m.nodes, m.levels[i], at[i], x);
    PositionUnique(m.nodes, i, m.levels[i], at[i]);
  }

  lemma GrownOk(a: Moment, b: Moment)
    requires Grown(a, b) || (LevelsOk(a) && a == b)
    ensures LevelsOk(a) && LevelsOk(b) && Grown(a, b) && |a.nodes| <= |b.nodes|
    ensures forall k :: 0 <= k < |a.nodes| ==> b.nodes[k].entry == a.nodes[k].entry
  {
  }

  lemma SameEntries(a: Moment, b: Moment)
    requires LevelsOk(a) && LevelsOk(b) && b == a.(maxHeight := b.maxHeight)
    ensures EntriesOf(b) == EntriesOf(a)
  {
  }

  lemma Begin(m: Moment)
    requires LevelsOk(m)
    ensures History([m])
  {
  }

  lemma GrownTrans(a: Moment, b: Moment, c: Moment)
    requires Grown(a, b) && Grown(b, c)
    ensures Grown(a, c)
  {
    forall l | 0 <= l < MAX_HEIGHT ensures Within(a.levels[l], c.levels[l]) {
      assert Within(a.levels[l], b.levels[l]) && Within(b.levels[l], c.levels[l]);
    }
  }

  lemma Extend(history: seq<Moment>, m: Moment)
    requires History(history) && Grown(history[|history| - 1], m)
    ensures History(history + [m]) && |history| > 0
  {
  }

  lemma HeightInRange(m: Moment)
    requires LevelsOk(m)
    ensures 1 <= m.maxHeight <= MAX_HEIGHT == |m.levels|
  {
  }

  lemma StandsAtHead(nodes: seq<Node>, ids: seq<nat>, key: IKey)
    ensures Stands(nodes, ids, key, 0)
  {
  }

  /** A load of any search, and the way down. */
  lemma LoadAny(m: Moment, x: nat, l: nat)
    requires LevelsOk(m) && l < MAX_HEIGHT && (x == 0 || x in m.levels[l])
    ensures x < |m.nodes| && l < |m.nodes[x].next|
    ensures m.nodes[x].next[l] == After(m.levels[l], Position(m.levels[l], x))
    ensures m.nodes[x].next[l].Some? ==> m.nodes[x].next[l].value in m.levels[l]
    ensures m.nodes[x].next[l].Some? ==> Position(m.levels[l], m.nodes[x].next[l].value) == Position(m.levels[l], x) + 1
    ensures l > 0 ==> x == 0 || x in m.levels[l - 1]
  {
    var ids, p := m.levels[l], Position(m.levels[l], x);
    assert LevelOk(m.nodes, l, ids);
    if p < |ids| {
      PositionUnique(m.nodes, l, ids, p + 1);
    }
    if l > 0 {
      assert Within(ids, m.levels[l - 1]);
    }
  }

  lemma LoadAt(m: Moment, key: IKey, x: nat, l: nat)
    requires LevelsOk(m) && l < MAX_HEIGHT && Stands(m.nodes, m.levels[l], key, x)
    ensures x == 0 || x in m.levels[l]
    ensures x < |m.nodes| && l < |m.nodes[x].next|
    ensures var next := m.nodes[x].next[l]; var p := Position(m.levels[l], x);
      && next == After(m.levels[l], p)
      && (next.Some? ==> next.value < |m.nodes| && next.value in m.levels[l] && Position(m.levels[l], next.value) == p + 1)
      && (if KeyIsAfterNode(m.nodes, key, next) then Stands(m.nodes, m.levels[l], key, next.value) else StopsAt(m.nodes, m.levels[l], key, p))
    ensures l > 0 ==> Stands(m.nodes, m.levels[l - 1], key, x) && (x == 0 || x in m.levels[l - 1])
  {
    assert LevelOk(m.nodes, l, m.levels[l]);
    LoadNext(m.nodes, l, m.levels[l], key, x);
    if l > 0 {
      assert Within(m.levels[l], m.levels[l - 1]);
    }
  }

  /** An entry compares equal to the key only where a search for the key lands. */
  lemma Landing(m: Moment, key: IKey)
    requires LevelsOk(m)
    ensures var at := SeekIndex(EntriesOf(m), key);
      Absent(EntriesOf(m), key) <==> at == |m.levels[0]| || Less(key, EntriesOf(m)[at].key)
  {
    var es := EntriesOf(m);
    var at := SeekIndex(es, key);
    EntriesAscend(m);
    if at < |es| {
      assert es[at] in es;
      if Less(key, es[at].key) {
        forall j | at < j < |es| ensures Less(key, es[j].key) {
          assert Less(es[at].key, es[j].key);
        }
      }
    }
  }

  /** Memory differs by a single store: the height, a fresh node, or one pointer. */
  ghost predicate OneStore(a: Moment, b: Moment) {
    || b.nodes == a.nodes
    || (b.maxHeight == a.maxHeight && |b.nodes| == |a.nodes| + 1 && b.nodes[..|a.nodes|] == a.nodes)
    || (b.maxHeight == a.maxHeight && exists y: nat, l: nat, to ::
          y < |a.nodes| && l < |a.nodes[y].next| && b.nodes == WithNext(a.nodes, y, l, to))
  }

  /** Every state an operation leaves between its stores, each grown from the one before. */
  ghost predicate Traces(history: seq<Moment>, before: Moment, now: Moment) {
    && (forall i, j | 0 <= i && j == i + 1 && j < |history| :: OneStore(history[i], history[j]))
    && History(history) && history[0] == before && history[|history| - 1] == now && Grown(before, now)
  }

  lemma TraceGrows(history: seq<Moment>, before: Moment, now: Moment)
    requires Traces(history, before, now)
    ensures LevelsOk(before) && LevelsOk(now) && Grown(before, now) && |before.nodes| <= |now.nodes|
    ensures forall k :: 0 <= k < |before.nodes| ==> now.nodes[k].entry == before.nodes[k].entry
  {
  }

  lemma TwoStores(history: seq<Moment>, before: Moment, last: Moment, between: Moment, now: Moment)
    requires Traces(history, before, last) && Grown(last, between) && Grown(between, now)
    requires OneStore(last, between) && OneStore(between, now)
    ensures Traces(history + [between] + [now], before, now) && LevelsOk(now)
  {
    Extend(history, between);
    Extend(history + [between], now);
    GrownTrans(before, last, between);
    GrownTrans(before, between, now);
  }

  class SkipList {
    var nodes: seq<Node>
    var maxHeight: nat
    /** The nodes of each level. */
    ghost var levels: seq<seq<nat>>

    ghost function Now(): Moment
      reads this
    {
      Moment(nodes, maxHeight, levels)
    }

    ghost predicate Valid()
      reads this
    {
      LevelsOk(Now())
    }

    /** The entries in the list, in key order. */
    ghost function Contents(): (es: seq<Entry>)
      requires Valid()
      reads this
    {
      EntriesOf(Now())
    }

    constructor (anyEntry: Entry)
      ensures Valid() && Contents() == []
    {
      nodes := [Node(anyEntry, seq(MAX_HEIGHT, _ => None))];
      maxHeight := 1;
      levels := seq(MAX_HEIGHT, _ => []);
      new;
      assert forall l :: 0 <= l < MAX_HEIGHT ==> levels[l] == [];
      assert forall l :: 0 <= l < MAX_HEIGHT ==> LevelOk(nodes, l, levels[l]);
    }

    /** FindGreaterOrEqual, with the node before the key on every level in use. */
    method FindGreaterOrEqual(key: IKey) returns (found: Option<nat>, prev: seq<nat>, ghost at: seq<nat>)
      requires Valid()
      ensures Answers(Now(), key, found)
      ensures |prev| == |at| == maxHeight && Places(Now(), key, maxHeight, prev, at)
      ensures at[0] == SeekIndex(Contents(), key)
    {
      hide Stands, StopsAt, LevelsOk;
      HeightInRange(Now());
      var x: nat, level: nat := 0, maxHeight - 1;
      prev, at, found := seq(maxHeight, _ => 0), seq(maxHeight, _ => 0), None;
      StandsAtHead(nodes, levels[level], key);
      var searching := true;
      while searching
        invariant 0 <= level < maxHeight && |prev| == |at| == maxHeight
        invariant Stands(nodes, levels[level], key, x) && (x == 0 || x in levels[level])
        invariant forall l :: level < l < maxHeight ==> at[l] <= |levels[l]| && StopsAt(nodes, levels[l], key, at[l]) && prev[l] == NodeAt(levels[l], at[l])
        invariant !searching ==> level == 0 && at[0] <= |levels[0]| && StopsAt(nodes, levels[0], key, at[0]) && prev[0] == NodeAt(levels[0], at[0]) && found == After(levels[0], at[0])
        decreases searching, level, |levels[level]| - Position(levels[level], x)
      {
        LoadAt(Now(), key, x, level);
        var next := nodes[x].next[level];
        if KeyIsAfterNode(nodes, key, next) {
          x := next.value;
        } else {
          prev, at := prev[level := x], at[level := Position(levels[level], x)];
          if level == 0 {
            found, searching := next, false;
          } else {
            level := level - 1;
          }
        }
      }
      StopsAtSeek(Now(), key, at[0]);
    }

    /** FindLessThan: the last node before the key, or the head. */
    method FindLessThan(key: IKey) returns (x: nat)
      requires Valid()
      ensures SeekIndex(Contents(), key) <= |levels[0]| && x == NodeAt(levels[0], SeekIndex(Contents(), key))
    {
      hide Stands, StopsAt, LevelsOk;
      HeightInRange(Now());
      var level: nat := maxHeight - 1;
      x := 0;
      StandsAtHead(nodes, levels[level], key);
      while true
        invariant 0 <= level < maxHeight
        invariant Stands(nodes, levels[level], key, x) && (x == 0 || x in levels[level])
        decreases level, |levels[level]| - Position(levels[level], x)
      {
        LoadAt(Now(), key, x, level);
        var next := nodes[x].next[level];
        if next == None || !Less(nodes[next.value].entry.key, key) {
          if level == 0 {
            StopsAtSeek(Now(), key, Position(levels[0], x));
            return;
          } else {
            level := level - 1;
          }
        } else {
          x := next.value;
        }
      }
    }

    /** FindLast: the last node of the list, or the head. */
    method FindLast() returns (x: nat)
      requires Valid()
      ensures x == NodeAt(levels[0], |levels[0]|)
    {
      hide LevelsOk;
      HeightInRange(Now());
      var level: nat := maxHeight - 1;
      x := 0;
      while true
        invariant 0 <= level < maxHeight
        invariant x == 0 || x in levels[level]
        decreases level, |levels[level]| - Position(levels[level], x)
      {
        LoadAny(Now(), x, level);
        var next := nodes[x].next[level];
        if next == None {
          if level == 0 {
            return;
          } else {
            level := level - 1;
          }
        } else {
          x := next.value;
        }
      }
    }

    method Contains(key: IKey) returns (present: bool)
      requires Valid()
      ensures present <==> !Absent(Contents(), key)
    {
      var x, _, at := FindGreaterOrEqual(key);
      Landing(Now(), key);
      present := x.Some? && !Less(key, nodes[x.value].entry.key) && !Less(nodes[x.value].entry.key, key);
    }

    /** The two stores that put node `x` on level `i`. */
    method Link(x: nat, height: nat, prev: seq<nat>, i: nat, ghost at: seq<nat>) returns (ghost between: Moment)
      requires Valid() && i < height <= maxHeight && Pending(Now(), x, height, prev, at, i)
      modifies `nodes, `levels
      ensures Grown(old(Now()), between) && Grown(between, Now())
      ensures OneStore(old(Now()), between) && OneStore(between, Now())
      ensures |nodes| == |old(nodes)| && maxHeight == old(maxHeight)
      ensures Pending(Now(), x, height, prev, at, i + 1) && nodes[x].entry == old(nodes[x].entry)
      ensures levels == old(levels)[i := Spliced(old(levels)[i], at[i], x)]
    {
      hide Grown;
      MayLink(Now(), x, height, prev, at, i);
      ghost var ids := levels[i];
      var next := nodes[prev[i]].next[i];
      StoreUnlinked(Now(), x, i, next);
      PendingStore(Now(), x, height, prev, at, i, x, i, next);
      nodes := WithNext(nodes, x, i, next);
      between := Now();
      GrownOk(old(Now()), between);
      Publish(Now(), i, at[i], x);
      PendingPublish(Now(), x, height, prev, at, i);
      nodes := WithNext(nodes, prev[i], i, Some(x));
      levels := levels[i := Spliced(ids, at[i], x)];
    }

    /** The part of Insert before the node is linked: the search, the new height and the new node. */
    method Prepare(e: Entry, memory: seq<Option<nat>>) returns (x: nat, prev: seq<nat>, ghost at: seq<nat>, ghost history: seq<Moment>)
      requires Valid() && Absent(Contents(), e.key) && 1 <= |memory| <= MAX_HEIGHT
      modifies this
      ensures |history| == (if |memory| > old(maxHeight) then 3 else 2)
      ensures Traces(history, old(Now()), Now()) && levels == old(levels) && |memory| <= maxHeight
      ensures Pending(Now(), x, |memory|, prev, at, 0) && |old(nodes)| <= x < |nodes| && nodes[x].entry == e
      ensures |at| > 0 && at[0] == SeekIndex(old(Contents()), e.key) <= |old(levels)[0]|
    {
      hide Grown, Pending, Places, LevelsOk;
      HeightInRange(Now());
      ghost var found;
      found, prev, at := FindGreaterOrEqual(e.key);
      var height := |memory|;
      history := [Now()];
      Begin(Now());
      if height > maxHeight {
        HeadAbove(Now(), e.key, height, prev, at);
        prev, at := prev + seq(height - maxHeight, _ => 0), at + seq(height - maxHeight, _ => 0);
        Raise(Now(), height);
        maxHeight := height;
        Extend(history, Now());
        history := history + [Now()];
      }
      ghost var raised := Now();
      GrownOk(old(Now()), raised);
      SameEntries(old(Now()), raised);
      x := |nodes|;
      var node := Node(e, memory);
      Append(Now(), node);
      PlacesFound(Now(), node, height, prev, at);
      nodes := nodes + [node];
      Extend(history, Now());
      history := history + [Now()];
      GrownTrans(old(Now()), raised, Now());
    }

    /** Insert, with a node of a height that a random number chose; `memory` is what the arena
        held where the node's pointers now are.  `history` is the list after every single store. */
    method Insert(e: Entry, memory: seq<Option<nat>>) returns (ghost history: seq<Moment>)
      requires Valid() && Absent(Contents(), e.key) && 1 <= |memory| <= MAX_HEIGHT
      modifies this
      ensures Valid()
      ensures var at := SeekIndex(old(Contents()), e.key); Contents() == old(Contents())[..at] + [e] + old(Contents())[at..]
      ensures Traces(history, old(Now()), Now())
      ensures |history| == (if |memory| > old(maxHeight) then 3 else 2) + 2 * |memory|
    {
      hide Grown, LevelsOk, Pending, Traces, Spliced, EntriesOf, Absent, OneStore;
      ghost var before := Now();
      var x, prev;
      ghost var at;
      x, prev, at, history := Prepare(e, memory);
      TraceGrows(history, before, Now());
      HeightInRange(Now());
      var i: nat := 0;
      while i < |memory|
        invariant i <= |memory| <= maxHeight
        invariant LevelsOk(Now()) && Pending(Now(), x, |memory|, prev, at, i)
        invariant |history| == (if |memory| > before.maxHeight then 3 else 2) + 2 * i
        invariant Traces(history, before, Now()) && |before.nodes| <= x < |nodes| && nodes[x].entry == e && |levels| == MAX_HEIGHT
        invariant levels[0] == if i == 0 then before.levels[0] else Spliced(before.levels[0], at[0], x)
      {
        ghost var last := Now();
        ghost var between := Link(x, |memory|, prev, i, at);
        TwoStores(history, before, last, between, Now());
        history := history + [between] + [Now()];
        i := i + 1;
      }
      TraceGrows(history, before, Now());
      EntriesSpliced(before, Now(), at[0], x);
    }
  }
}
