/** The tables of the lineage engine as values: lineage nodes keyed by content
    hash with their parent links, the LSH band table, spread events; and the
    pure parts of its queries: family membership, the parent choice, the
    family tree and the statistics. */
module LineageModel {
  import opened Wrappers
  import opened Sorting
  import opened LineageHashing

  datatype Location = Location(
    country: Option<string>,
    city: Option<string>,
    latitude: Option<real>,
    longitude: Option<real>,
    ipHash: Option<string>)

  /** A row of the lineage table. Timestamps are instants; the table stores
      them as ISO strings, which order the same way. */
  datatype Node = Node(
    videoHash: string,
    perceptualHash: string,
    parent: Option<string>,
    firstSeen: int,
    sourcePlatform: Option<string>,
    sourceUrl: Option<string>,
    mutations: seq<string>,
    generation: int,
    children: seq<string>,
    isDeepfake: bool,
    confidence: real,
    metadata: map<string, string>,
    origin: Location)

  type Lineage = map<string, Node>

  /** The band table: (video hash, band index) to band value. */
  type BandTable = map<(string, int), string>

  /** A row of the spread-event table. */
  datatype SpreadEvent = SpreadEvent(
    videoHash: string,
    platform: string,
    url: Option<string>,
    discoveredAt: int,
    viewCount: Option<int>,
    shareCount: Option<int>,
    metadata: Option<string>,
    location: Location)

  // ---------------------------------------------------------------------
  // The forest invariant

  /** The parent of k exists, is one generation older and lists k. */
  ghost predicate ParentLinked(lin: Lineage, k: string)
    requires k in lin && lin[k].parent.Some?
  {
    var p := lin[k].parent.value;
    p in lin && lin[k].generation == lin[p].generation + 1 && k in lin[p].children
  }

  /** Every child of k exists, names k as its parent, and is listed once. */
  ghost predicate ChildrenLinked(lin: Lineage, k: string)
    requires k in lin
  {
    var cs := lin[k].children;
    (forall i :: 0 <= i < |cs| ==> cs[i] in lin && lin[cs[i]].parent == Some(k)) &&
    (forall i, j :: 0 <= i < j < |cs| ==> cs[i] != cs[j])
  }

  /** What registration keeps true of the lineage table: rows are keyed by
      their own hash, roots are generation 0, and parent and children links
      agree. */
  ghost predicate Forest(lin: Lineage)
  {
    (forall k :: k in lin ==> lin[k].videoHash == k && lin[k].generation >= 0) &&
    (forall k :: k in lin && lin[k].parent.None? ==> lin[k].generation == 0) &&
    (forall k :: k in lin && lin[k].parent.Some? ==> ParentLinked(lin, k)) &&
    (forall k :: k in lin ==> ChildrenLinked(lin, k))
  }

  /** The ancestor n steps above k. */
  ghost function Ancestor(lin: Lineage, k: string, n: nat): (a: string)
    requires Forest(lin) && k in lin && n <= lin[k].generation
    ensures a in lin && lin[a].generation == lin[k].generation - n
    decreases n
  {
    if n == 0 then k
    else
      var a := Ancestor(lin, k, n - 1);
      assert ParentLinked(lin, a);
      lin[a].parent.value
  }

  /** Parent links never loop: following them from k reaches a root after
      exactly `generation` steps and never comes back to k. */
  lemma ForestAcyclic(lin: Lineage, k: string)
    requires Forest(lin) && k in lin
    ensures lin[Ancestor(lin, k, lin[k].generation)].parent.None?
    ensures forall n :: 1 <= n <= lin[k].generation ==> Ancestor(lin, k, n) != k
  {
    var r := Ancestor(lin, k, lin[k].generation);
    assert lin[r].generation == 0;
  }

  // ---------------------------------------------------------------------
  // Registration

  /** `_add_child_to_parent`: append the child to an existing parent's list
      unless it is already there. */
  function AddChild(lin: Lineage, p: string, c: string): Lineage
  {
    if p in lin && c !in lin[p].children then lin[p := lin[p].(children := lin[p].children + [c])] else lin
  }

  /** Adding a child touches only the parent row, lists the child afterwards
      and never lists it twice. */
  lemma AddChildEffect(lin: Lineage, p: string, c: string)
    ensures AddChild(lin, p, c).Keys == lin.Keys
    ensures forall k :: k in lin && k != p ==> AddChild(lin, p, c)[k] == lin[k]
    ensures p in lin ==>
      AddChild(lin, p, c)[p] == lin[p].(children := AddChild(lin, p, c)[p].children) &&
      c in AddChild(lin, p, c)[p].children &&
      (c in lin[p].children ==> AddChild(lin, p, c)[p] == lin[p]) &&
      (c !in lin[p].children ==> AddChild(lin, p, c)[p].children == lin[p].children + [c])
    ensures p in lin && (forall i, j :: 0 <= i < j < |lin[p].children| ==> lin[p].children[i] != lin[p].children[j]) ==>
      var cs := AddChild(lin, p, c)[p].children;
      forall i, j :: 0 <= i < j < |cs| ==> cs[i] != cs[j]
  {
  }

  /** The lineage table after registering a new node: the child is added to
      its parent, then the node is stored. */
  function Attach(lin: Lineage, n: Node): Lineage
  {
    match n.parent
    case None => lin[n.videoHash := n]
    case Some(p) => AddChild(lin, p, n.videoHash)[n.videoHash := n]
  }

  /** What registration guarantees of a new node: a fresh hash, no children,
      and a parent that already exists one generation up (or none and
      generation 0). */
  predicate Attachable(lin: Lineage, n: Node)
  {
    n.videoHash !in lin && n.children == [] &&
    (n.parent.None? ==> n.generation == 0) &&
    (n.parent.Some? ==> n.parent.value in lin && n.generation == lin[n.parent.value].generation + 1)
  }

  /** The rows after attaching: the new node, its parent with the child
      appended, and every other row unchanged. */
  lemma AttachShape(lin: Lineage, n: Node)
    requires Forest(lin) && Attachable(lin, n)
    ensures Attach(lin, n).Keys == lin.Keys + {n.videoHash}
    ensures Attach(lin, n)[n.videoHash] == n
    ensures forall k :: k in lin && Some(k) != n.parent ==> Attach(lin, n)[k] == lin[k]
    ensures n.parent.Some? ==>
      Attach(lin, n)[n.parent.value] == lin[n.parent.value].(children := lin[n.parent.value].children + [n.videoHash])
  {
    if n.parent.Some? {
      var p := n.parent.value;
      assert ChildrenLinked(lin, p);
      assert n.videoHash !in lin[p].children;
    }
  }

  /** Registration keeps the table a forest. */
  lemma AttachPreservesForest(lin: Lineage, n: Node)
    requires Forest(lin) && Attachable(lin, n)
    ensures Forest(Attach(lin, n))
    ensures Attach(lin, n).Keys == lin.Keys + {n.videoHash}
    ensures Attach(lin, n)[n.videoHash] == n
  {
    AttachShape(lin, n);
    var h := n.videoHash;
    var lin' := Attach(lin, n);
    forall k | k in lin'
      ensures lin'[k].videoHash == k && lin'[k].generation >= 0
      ensures lin'[k].parent.None? ==> lin'[k].generation == 0
    {
      if k != h && Some(k) == n.parent {
        assert lin'[k].generation == lin[k].generation;
      }
    }
    forall k | k in lin' && lin'[k].parent.Some?
      ensures ParentLinked(lin', k)
    {
      AttachParentLinked(lin, n, k);
    }
    forall k | k in lin'
      ensures ChildrenLinked(lin', k)
    {
      AttachChildrenLinked(lin, n, k);
    }
  }

  lemma AttachParentLinked(lin: Lineage, n: Node, k: string)
    requires Forest(lin) && Attachable(lin, n)
    requires k in Attach(lin, n) && Attach(lin, n)[k].parent.Some?
    ensures ParentLinked(Attach(lin, n), k)
  {
    AttachShape(lin, n);
    var lin' := Attach(lin, n);
    if k != n.videoHash {
      assert lin'[k].parent == lin[k].parent;
      assert ParentLinked(lin, k);
      var p := lin[k].parent.value;
      assert lin'[p].generation == lin[p].generation;
      assert k in lin'[p].children;
    }
  }

  lemma AttachChildrenLinked(lin: Lineage, n: Node, k: string)
    requires Forest(lin) && Attachable(lin, n)
    requires k in Attach(lin, n)
    ensures ChildrenLinked(Attach(lin, n), k)
  {
    AttachShape(lin, n);
    if k != n.videoHash {
      if Some(k) == n.parent {
        AttachChildrenOfParent(lin, n, k);
      } else {
        AttachChildrenOfOther(lin, n, k);
      }
    }
  }

  /** The parent's children gain the new node, which points back to it. */
  lemma AttachChildrenOfParent(lin: Lineage, n: Node, k: string)
    requires Forest(lin) && Attachable(lin, n)
    requires k in lin && k != n.videoHash && Some(k) == n.parent
    ensures k in Attach(lin, n) && ChildrenLinked(Attach(lin, n), k)
  {
    AttachShape(lin, n);
    var lin' := Attach(lin, n);
    var h := n.videoHash;
    assert ChildrenLinked(lin, k);
    var cs := lin[k].children;
    assert forall i :: 0 <= i < |cs| ==> cs[i] != h;
    var cs' := lin'[k].children;
    assert cs' == cs + [h];
    forall i | 0 <= i < |cs'|
      ensures cs'[i] in lin' && lin'[cs'[i]].parent == Some(k)
    {
      if i < |cs| {
        assert cs'[i] == cs[i];
        assert cs[i] != k by {
          assert lin[cs[i]].parent == Some(k);
          assert ParentLinked(lin, cs[i]);
        }
      }
    }
  }

  /** Any other row keeps its children, whose parents are unchanged. */
  lemma AttachChildrenOfOther(lin: Lineage, n: Node, k: string)
    requires Forest(lin) && Attachable(lin, n)
    requires k in lin && k != n.videoHash && Some(k) != n.parent
    ensures k in Attach(lin, n) && ChildrenLinked(Attach(lin, n), k)
  {
    AttachShape(lin, n);
    var lin' := Attach(lin, n);
    var h := n.videoHash;
    assert ChildrenLinked(lin, k);
    var cs := lin[k].children;
    assert forall i :: 0 <= i < |cs| ==> cs[i] != h;
    assert forall i :: 0 <= i < |cs| ==> lin'[cs[i]] == lin[cs[i]] || Some(cs[i]) == n.parent;
    forall i | 0 <= i < |cs|
      ensures lin'[cs[i]].parent == Some(k)
    {
      if Some(cs[i]) == n.parent {
        assert lin'[cs[i]].parent == lin[cs[i]].parent;
      }
    }
  }

  /** `_store_node`'s band writes: row (h, i) gets band i. */
  function StoreBands(table: BandTable, h: string, bands: seq<string>): BandTable
  {
    if |bands| == 0 then table
    else StoreBands(table, h, bands[..|bands| - 1])[(h, |bands| - 1) := bands[|bands| - 1]]
  }

  /** Band i of h holds the new band value; every other row is unchanged. */
  lemma {:induction false} StoreBandsEffect(table: BandTable, h: string, bands: seq<string>)
    ensures forall i :: 0 <= i < |bands| ==> (h, i) in StoreBands(table, h, bands) && StoreBands(table, h, bands)[(h, i)] == bands[i]
    ensures forall key: (string, int) :: key.0 != h || !(0 <= key.1 < |bands|) ==>
      (key in StoreBands(table, h, bands) <==> key in table) &&
      (key in table ==> StoreBands(table, h, bands)[key] == table[key])
  {
    if |bands| > 0 {
      var prefix := bands[..|bands| - 1];
      StoreBandsEffect(table, h, prefix);
      assert forall i :: 0 <= i < |prefix| ==> prefix[i] == bands[i];
    }
  }

  // ---------------------------------------------------------------------
  // Family search

  /** Rows whose band i equals the query's band i. */
  function BandMatches(table: BandTable, query: seq<string>, i: int): set<string>
    requires 0 <= i < |query|
  {
    set key | key in table && key.1 == i && table[key] == query[i] :: key.0
  }

  /** The candidate set after querying the first n bands. */
  function CandidatesUpTo(table: BandTable, query: seq<string>, n: int): set<string>
    requires 0 <= n <= |query|
  {
    if n == 0 then {} else CandidatesUpTo(table, query, n - 1) + BandMatches(table, query, n - 1)
  }

  /** A candidate is exactly a hash sharing some band, at the same index,
      with the query. */
  lemma {:induction false} CandidatesShareBand(table: BandTable, query: seq<string>, n: int, h: string)
    requires 0 <= n <= |query|
    ensures h in CandidatesUpTo(table, query, n) <==>
      exists i :: 0 <= i < n && (h, i) in table && table[(h, i)] == query[i]
  {
    if n > 0 {
      CandidatesShareBand(table, query, n - 1, h);
      if (h, n - 1) in table && table[(h, n - 1)] == query[n - 1] {
        assert h in BandMatches(table, query, n - 1);
      }
    }
  }

  /** A family member with its distance to the query hash. */
  datatype Member = Member(node: Node, distance: nat)

  function MemberOf(lin: Lineage, phash: string, k: string): Member
    requires k in lin
  {
    Member(lin[k], HexDistance(phash, lin[k].perceptualHash))
  }

  predicate Qualifies(lin: Lineage, threshold: int, phash: string, k: string)
  {
    k in lin && HexDistance(phash, lin[k].perceptualHash) <= threshold
  }

  /** The members found among the given keys. */
  ghost function Scored(lin: Lineage, threshold: int, phash: string, keys: set<string>): set<Member>
  {
    set k | k in keys && Qualifies(lin, threshold, phash, k) :: MemberOf(lin, phash, k)
  }

  /** Hashes of the family of `phash`: rows sharing a band with it and within
      the distance threshold. */
  ghost function FamilyKeys(lin: Lineage, table: BandTable, bands: int, threshold: int, phash: string): set<string>
    requires bands != 0
  {
    var query := HexBands(phash, bands);
    set k | k in CandidatesUpTo(table, query, |query|) && Qualifies(lin, threshold, phash, k)
  }

  ghost function FamilyMembers(lin: Lineage, table: BandTable, bands: int, threshold: int, phash: string): set<Member>
    requires bands != 0
  {
    var query := HexBands(phash, bands);
    Scored(lin, threshold, phash, CandidatesUpTo(table, query, |query|))
  }

  /** In a forest a member is determined by its key: the members are exactly
      the rows of the family keys with their distances. */
  lemma FamilyMembership(lin: Lineage, table: BandTable, bands: int, threshold: int, phash: string)
    requires bands != 0 && Forest(lin)
    ensures forall k :: k in FamilyKeys(lin, table, bands, threshold, phash) ==>
      MemberOf(lin, phash, k) in FamilyMembers(lin, table, bands, threshold, phash)
    ensures forall m :: m in FamilyMembers(lin, table, bands, threshold, phash) ==>
      m.node.videoHash in FamilyKeys(lin, table, bands, threshold, phash) &&
      m == MemberOf(lin, phash, m.node.videoHash)
    ensures FamilyKeys(lin, table, bands, threshold, phash) == {} <==>
      FamilyMembers(lin, table, bands, threshold, phash) == {}
  {
    var keys := FamilyKeys(lin, table, bands, threshold, phash);
    if keys != {} {
      var k :| k in keys;
      assert MemberOf(lin, phash, k) in FamilyMembers(lin, table, bands, threshold, phash);
    }
  }

  /** A sequence with the multiset of a set holds exactly its elements. */
  lemma SameElements<T>(s: seq<T>, S: set<T>)
    requires multiset(s) == multiset(S)
    ensures forall x :: x in s <==> x in S
  {
    forall x ensures x in s <==> x in S {
      assert x in s <==> x in multiset(s);
    }
  }

  /** Scoring one more candidate adds at most its own member. */
  lemma ScoredStep(lin: Lineage, threshold: int, phash: string, done: set<string>, c: string)
    requires Forest(lin) && c !in done
    ensures Qualifies(lin, threshold, phash, c) ==>
      MemberOf(lin, phash, c) !in Scored(lin, threshold, phash, done) &&
      Scored(lin, threshold, phash, done + {c}) == Scored(lin, threshold, phash, done) + {MemberOf(lin, phash, c)}
    ensures !Qualifies(lin, threshold, phash, c) ==>
      Scored(lin, threshold, phash, done + {c}) == Scored(lin, threshold, phash, done)
  {
  }

  /** ScoredStep, counted as multisets, the form a list of found members
      is compared in. */
  lemma ScoredMultisetStep(lin: Lineage, threshold: int, phash: string, done: set<string>, c: string)
    requires Forest(lin) && c !in done
    ensures Qualifies(lin, threshold, phash, c) ==>
      multiset(Scored(lin, threshold, phash, done + {c})) == multiset(Scored(lin, threshold, phash, done)) + multiset{MemberOf(lin, phash, c)}
    ensures !Qualifies(lin, threshold, phash, c) ==>
      multiset(Scored(lin, threshold, phash, done + {c})) == multiset(Scored(lin, threshold, phash, done))
  {
    ScoredStep(lin, threshold, phash, done, c);
  }

  /** `find_family`'s sort key. */
  predicate FamilyLe(a: Member, b: Member)
  {
    a.node.generation < b.node.generation ||
    (a.node.generation == b.node.generation && a.node.firstSeen <= b.node.firstSeen)
  }

  /** `register_video`'s sort key. */
  predicate DistanceLe(a: Member, b: Member)
  {
    a.distance <= b.distance
  }

  lemma OrdersArePreorders()
    ensures TotalPreorder(FamilyLe)
    ensures TotalPreorder(DistanceLe)
  {
  }

  /** The members seen before `now`, in family order. */
  function BornBefore(family: seq<Member>, now: int): (r: seq<Member>)
    ensures forall m :: m in r <==> m in family && m.node.firstSeen < now
  {
    if |family| == 0 then []
    else (if family[0].node.firstSeen < now then [family[0]] else []) + BornBefore(family[1..], now)
  }

  lemma {:induction false} BornBeforeSorted(family: seq<Member>, now: int, le: (Member, Member) -> bool)
    requires Sorted(family, le)
    ensures Sorted(BornBefore(family, now), le)
  {
    if |family| > 0 {
      var tail := family[1..];
      BornBeforeSorted(tail, now, le);
      assert forall m :: m in tail ==> le(family[0], m) by {
        forall m | m in tail ensures le(family[0], m) {
          var j :| 0 <= j < |tail| && tail[j] == m;
          assert family[j + 1] == m;
        }
      }
    }
  }

  /** The parent `register_video` picks from a family: the potential parents
      (seen before now) sorted stably by distance, first one; so the closest,
      and among equally close ones the first in family order. */
  function ChooseParent(family: seq<Member>, now: int): Option<Member>
  {
    var potential := BornBefore(family, now);
    if |potential| == 0 then None else Some(potential[FirstMinIndex(potential, DistanceLe)])
  }

  /** The chosen parent is an earlier family member no farther than any other
      earlier one, ties going to the smallest (generation, first_seen); there
      is none exactly when no member is earlier than now. */
  lemma ParentChoice(family: seq<Member>, now: int)
    requires Sorted(family, FamilyLe)
    ensures ChooseParent(family, now).None? <==> forall m :: m in family ==> m.node.firstSeen >= now
    ensures ChooseParent(family, now).Some? ==>
      var p := ChooseParent(family, now).value;
      p in family && p.node.firstSeen < now &&
      forall m :: m in family && m.node.firstSeen < now ==>
        p.distance < m.distance || (p.distance == m.distance && FamilyLe(p, m))
  {
    var potential := BornBefore(family, now);
    if |potential| > 0 {
      OrdersArePreorders();
      BornBeforeSorted(family, now, FamilyLe);
      FirstMinIndexIsFirstMinimum(potential, DistanceLe);
      var j := FirstMinIndex(potential, DistanceLe);
      forall m | m in family && m.node.firstSeen < now
        ensures potential[j].distance < m.distance || (potential[j].distance == m.distance && FamilyLe(potential[j], m))
      {
        var i :| 0 <= i < |potential| && potential[i] == m;
        if i < j {
          assert !DistanceLe(potential[i], potential[j]);
        } else if i > j {
          assert FamilyLe(potential[j], potential[i]);
        }
      }
    }
  }

  /** Row p is the better parent candidate than row k for `phash`: closer,
      or as close and no later in family order. */
  predicate Preferred(lin: Lineage, phash: string, p: string, k: string)
    requires p in lin && k in lin
  {
    var mp, mk := MemberOf(lin, phash, p), MemberOf(lin, phash, k);
    mp.distance < mk.distance || (mp.distance == mk.distance && FamilyLe(mp, mk))
  }

  // ---------------------------------------------------------------------
  // Family tree

  /** The `nodes` dictionary of `get_family_tree`. */
  function NodesOf(family: seq<Member>): (nodes: map<string, Node>)
    ensures forall m :: m in family ==> m.node.videoHash in nodes
  {
    if |family| == 0 then map[]
    else
      var last := family[|family| - 1];
      NodesOf(family[..|family| - 1])[last.node.videoHash := last.node]
  }

  /** Built from table rows, the dictionary holds exactly those rows. */
  lemma {:induction false} NodesOfRows(family: seq<Member>, lin: Lineage)
    requires forall m :: m in family ==> m.node.videoHash in lin && lin[m.node.videoHash] == m.node
    ensures forall k :: k in NodesOf(family) ==> k in lin && NodesOf(family)[k] == lin[k]
    ensures NodesOf(family).Keys == set m | m in family :: m.node.videoHash
  {
    if |family| > 0 {
      var prefix := family[..|family| - 1];
      assert forall m :: m in prefix ==> m in family;
      NodesOfRows(prefix, lin);
      assert family == prefix + [family[|family| - 1]];
    }
  }

  /** The nodes of a family that lists exactly the members of a key set are
      the lineage rows of those keys. */
  lemma FamilyNodes(lin: Lineage, phash: string, family: seq<Member>, keys: set<string>)
    requires forall k :: k in keys ==> k in lin && lin[k].videoHash == k
    requires forall m :: m in family ==> m.node.videoHash in keys && m == MemberOf(lin, phash, m.node.videoHash)
    requires forall k :: k in keys ==> MemberOf(lin, phash, k) in family
    ensures NodesOf(family) == map k | k in keys :: lin[k]
    ensures forall m :: m in family ==> m.node.videoHash in NodesOf(family) && NodesOf(family)[m.node.videoHash] == m.node
    ensures forall k :: k in NodesOf(family) ==> exists m :: m in family && m.node.videoHash == k
  {
    FamilyNodeKeys(lin, phash, family, keys);
    var nodes := NodesOf(family);
    assert nodes == map k | k in keys :: lin[k];
  }

  lemma FamilyNodeKeys(lin: Lineage, phash: string, family: seq<Member>, keys: set<string>)
    requires forall k :: k in keys ==> k in lin && lin[k].videoHash == k
    requires forall m :: m in family ==> m.node.videoHash in keys && m == MemberOf(lin, phash, m.node.videoHash)
    requires forall k :: k in keys ==> MemberOf(lin, phash, k) in family
    ensures NodesOf(family).Keys == keys
    ensures forall k :: k in NodesOf(family) ==> k in lin && NodesOf(family)[k] == lin[k]
    ensures forall m :: m in family ==> lin[m.node.videoHash] == m.node
    ensures forall k :: k in NodesOf(family) ==> exists m :: m in family && m.node.videoHash == k
  {
    FamilyRowsMatch(lin, phash, family, keys);
    NodesOfRows(family, lin);
    var nodes := NodesOf(family);
    forall k | k in keys ensures k in nodes {
      var m := MemberOf(lin, phash, k);
      assert m in family && m.node.videoHash == k;
    }
  }

  lemma FamilyRowsMatch(lin: Lineage, phash: string, family: seq<Member>, keys: set<string>)
    requires forall k :: k in keys ==> k in lin
    requires forall m :: m in family ==> m.node.videoHash in keys && m == MemberOf(lin, phash, m.node.videoHash)
    ensures forall m :: m in family ==> m.node.videoHash in lin && lin[m.node.videoHash] == m.node
  {
  }

  /** `roots`: members whose parent is absent or outside the family, in
      family order. */
  function RootsOf(family: seq<Member>, nodes: map<string, Node>): (roots: seq<string>)
    ensures forall k :: k in roots <==>
      exists m :: m in family && m.node.videoHash == k && (m.node.parent.None? || m.node.parent.value !in nodes)
  {
    if |family| == 0 then []
    else
      var n := family[0].node;
      assert forall m :: m in family <==> m == family[0] || m in family[1..];
      (if n.parent.None? || n.parent.value !in nodes then [n.videoHash] else []) + RootsOf(family[1..], nodes)
  }

  /** (generation, first_seen) order on nodes. */
  predicate NodeLe(a: Node, b: Node)
  {
    a.generation < b.generation || (a.generation == b.generation && a.firstSeen <= b.firstSeen)
  }

  /** The roots of a sorted family come in (generation, first_seen) order. */
  lemma {:induction false} RootsSorted(family: seq<Member>, nodes: map<string, Node>)
    requires Sorted(family, FamilyLe)
    requires forall m :: m in family ==> m.node.videoHash in nodes && nodes[m.node.videoHash] == m.node
    ensures var roots := RootsOf(family, nodes);
      (forall k :: k in roots ==> k in nodes) &&
      forall i, j :: 0 <= i < j < |roots| ==> NodeLe(nodes[roots[i]], nodes[roots[j]])
  {
    if |family| > 0 {
      var tail := family[1..];
      assert Sorted(tail, FamilyLe);
      RootsSorted(tail, nodes);
      var rest := RootsOf(tail, nodes);
      var n := family[0].node;
      if n.parent.None? || n.parent.value !in nodes {
        forall k | k in rest ensures NodeLe(n, nodes[k]) {
          var m :| m in tail && m.node.videoHash == k && (m.node.parent.None? || m.node.parent.value !in nodes);
          var i :| 0 <= i < |tail| && tail[i] == m;
          assert FamilyLe(family[0], family[i + 1]);
        }
        assert RootsOf(family, nodes) == [n.videoHash] + rest;
        OrderedCons(nodes, n.videoHash, rest);
      } else {
        assert RootsOf(family, nodes) == rest;
      }
    }
  }

  /** A hash no later than every hash of an ordered list keeps it ordered
      when put in front. */
  lemma OrderedCons(nodes: map<string, Node>, h: string, rest: seq<string>)
    requires h in nodes && forall k :: k in rest ==> k in nodes
    requires forall i, j :: 0 <= i < j < |rest| ==> NodeLe(nodes[rest[i]], nodes[rest[j]])
    requires forall k :: k in rest ==> NodeLe(nodes[h], nodes[k])
    ensures var roots := [h] + rest;
      (forall k :: k in roots ==> k in nodes) &&
      forall i, j :: 0 <= i < j < |roots| ==> NodeLe(nodes[roots[i]], nodes[roots[j]])
  {
    var roots := [h] + rest;
    forall i, j | 0 <= i < j < |roots| ensures NodeLe(nodes[roots[i]], nodes[roots[j]]) {
      assert roots[j] == rest[j - 1];
      if i > 0 {
        assert roots[i] == rest[i - 1];
      }
    }
  }

  /** The children of a node that are in the family, in order. */
  function InFamily(children: seq<string>, nodes: map<string, Node>): (r: seq<string>)
    ensures forall c :: c in r <==> c in children && c in nodes
    ensures |r| <= |children|
  {
    if |children| == 0 then []
    else (if children[0] in nodes then [children[0]] else []) + InFamily(children[1..], nodes)
  }

  /** A family dictionary cut from a forest: keyed by hash, and a listed
      child in the family is one generation below its parent. */
  ghost predicate TreeShaped(nodes: map<string, Node>)
  {
    (forall k :: k in nodes ==> nodes[k].videoHash == k) &&
    (forall k :: k in nodes && nodes[k].parent.Some? && nodes[k].parent.value in nodes ==>
      nodes[k].generation == nodes[nodes[k].parent.value].generation + 1) &&
    (forall k, c :: k in nodes && c in nodes[k].children && c in nodes ==>
      nodes[c].parent == Some(k) && nodes[c].generation == nodes[k].generation + 1)
  }

  lemma SubForestTreeShaped(lin: Lineage, nodes: map<string, Node>)
    requires Forest(lin)
    requires forall k :: k in nodes ==> k in lin && nodes[k] == lin[k]
    ensures TreeShaped(nodes)
  {
    forall k | k in nodes && nodes[k].parent.Some? && nodes[k].parent.value in nodes
      ensures nodes[k].generation == nodes[nodes[k].parent.value].generation + 1
    {
      assert ParentLinked(lin, k);
    }
    forall k, c | k in nodes && c in nodes[k].children && c in nodes
      ensures nodes[c].parent == Some(k) && nodes[c].generation == nodes[k].generation + 1
    {
      assert ChildrenLinked(lin, k);
      assert ParentLinked(lin, c);
    }
  }

  datatype FamilyTree =
    | NoTree
    | Subtree(node: Node, children: seq<FamilyTree>)
    | MultipleOrigins(generation: int, roots: seq<FamilyTree>)

  /** Members at generation g or below in the family: shrinks on every step
      down the tree. */
  function Deeper(nodes: map<string, Node>, g: int): set<string>
  {
    set j | j in nodes && nodes[j].generation >= g
  }

  /** `build_subtree`: the node with the subtrees of its in-family children,
      in the order they are listed. */
  function BuildSubtree(nodes: map<string, Node>, k: string): (t: FamilyTree)
    requires k in nodes && TreeShaped(nodes)
    ensures t.Subtree? && t.node == nodes[k]
    ensures |t.children| == |InFamily(nodes[k].children, nodes)|
    ensures forall i :: 0 <= i < |t.children| ==>
      t.children[i].Subtree? && t.children[i].node == nodes[InFamily(nodes[k].children, nodes)[i]]
    decreases Deeper(nodes, nodes[k].generation)
  {
    var kids := InFamily(nodes[k].children, nodes);
    var sub := seq(|kids|, i requires 0 <= i < |kids| =>
      assert kids[i] in nodes[k].children && k in Deeper(nodes, nodes[k].generation);
      BuildSubtree(nodes, kids[i]));
    Subtree(nodes[k], sub)
  }

  /** Every parent-child edge of a tree is a real parent link one generation
      down, and every node belongs to the family. */
  ghost predicate Edges(t: FamilyTree, nodes: map<string, Node>)
  {
    match t
    case NoTree => true
    case Subtree(n, cs) =>
      n.videoHash in nodes && nodes[n.videoHash] == n &&
      forall i :: 0 <= i < |cs| ==>
        cs[i].Subtree? && cs[i].node.parent == Some(n.videoHash) &&
        cs[i].node.generation == n.generation + 1 && Edges(cs[i], nodes)
    case MultipleOrigins(_, rs) =>
      forall i :: 0 <= i < |rs| ==> rs[i].Subtree? && Edges(rs[i], nodes)
  }

  lemma {:induction false} BuildSubtreeEdges(nodes: map<string, Node>, k: string)
    requires k in nodes && TreeShaped(nodes)
    ensures Edges(BuildSubtree(nodes, k), nodes)
    decreases Deeper(nodes, nodes[k].generation)
  {
    var t := BuildSubtree(nodes, k);
    var kids := InFamily(nodes[k].children, nodes);
    forall i | 0 <= i < |t.children|
      ensures t.children[i].Subtree? && t.children[i].node.parent == Some(k) &&
        t.children[i].node.generation == nodes[k].generation + 1 && Edges(t.children[i], nodes)
    {
      assert kids[i] in nodes[k].children && k in Deeper(nodes, nodes[k].generation);
      BuildSubtreeEdges(nodes, kids[i]);
    }
  }

  /** The tree of `get_family_tree` for a non-empty family: the single root's
      subtree, or a 'Multiple Origins' container at generation -1. */
  function TreeOfRoots(nodes: map<string, Node>, roots: seq<string>): (t: FamilyTree)
    requires TreeShaped(nodes) && forall k :: k in roots ==> k in nodes
    ensures |roots| == 1 ==> t == BuildSubtree(nodes, roots[0])
    ensures |roots| != 1 ==>
      t.MultipleOrigins? && t.generation == -1 && |t.roots| == |roots| &&
      (forall i :: 0 <= i < |roots| ==> t.roots[i] == BuildSubtree(nodes, roots[i]))
  {
    if |roots| == 1 then BuildSubtree(nodes, roots[0])
    else MultipleOrigins(-1, seq(|roots|, i requires 0 <= i < |roots| => BuildSubtree(nodes, roots[i])))
  }

  /** The tree over a sorted, non-empty family: a real tree whose edges are
      parent links of the lineage restricted to the family. */
  lemma FamilyTreeShape(lin: Lineage, phash: string, family: seq<Member>, keys: set<string>)
    requires Forest(lin) && |family| > 0 && Sorted(family, FamilyLe)
    requires forall k :: k in keys ==> k in lin && lin[k].videoHash == k
    requires forall m :: m in family ==> m.node.videoHash in keys && m == MemberOf(lin, phash, m.node.videoHash)
    requires forall k :: k in keys ==> MemberOf(lin, phash, k) in family
    ensures var nodes := NodesOf(family);
      TreeShaped(nodes) && (forall k :: k in RootsOf(family, nodes) ==> k in nodes) &&
      var tree := TreeOfRoots(nodes, RootsOf(family, nodes));
      !tree.NoTree? && Edges(tree, map k | k in keys :: lin[k]) &&
      (tree.MultipleOrigins? ==> tree.generation == -1 && |tree.roots| >= 2)
  {
    FamilyNodes(lin, phash, family, keys);
    var nodes := NodesOf(family);
    SubForestTreeShaped(lin, nodes);
    var roots := RootsOf(family, nodes);
    FirstMemberIsRoot(family, nodes);
    TreeOfRootsEdges(nodes, roots);
  }

  /** The roots of a family are exactly its members whose parent is absent
      or outside the family. */
  lemma FamilyRoots(lin: Lineage, phash: string, family: seq<Member>, keys: set<string>)
    requires Forest(lin)
    requires forall k :: k in keys ==> k in lin && lin[k].videoHash == k
    requires forall m :: m in family ==> m.node.videoHash in keys && m == MemberOf(lin, phash, m.node.videoHash)
    requires forall k :: k in keys ==> MemberOf(lin, phash, k) in family
    ensures NodesOf(family) == map k | k in keys :: lin[k]
    ensures TreeShaped(NodesOf(family)) && ParentsListChildren(NodesOf(family))
    ensures forall k :: k in RootsOf(family, NodesOf(family)) <==>
      k in keys && (lin[k].parent.None? || lin[k].parent.value !in keys)
  {
    FamilyNodes(lin, phash, family, keys);
    var nodes := NodesOf(family);
    SubForestTreeShaped(lin, nodes);
    SubForestListsChildren(lin, nodes);
    forall k | k in keys && (lin[k].parent.None? || lin[k].parent.value !in keys)
      ensures k in RootsOf(family, nodes)
    {
      var m := MemberOf(lin, phash, k);
      assert m in family && m.node.videoHash == k;
    }
  }

  /** The tree `get_family_tree` builds for a non-empty family holds every
      member and nothing else. */
  lemma FamilyTreeMembers(lin: Lineage, phash: string, family: seq<Member>, keys: set<string>)
    requires Forest(lin)
    requires forall k :: k in keys ==> k in lin && lin[k].videoHash == k
    requires forall m :: m in family ==> m.node.videoHash in keys && m == MemberOf(lin, phash, m.node.videoHash)
    requires forall k :: k in keys ==> MemberOf(lin, phash, k) in family
    ensures var nodes := NodesOf(family);
      (forall k :: k in RootsOf(family, nodes) ==> k in nodes) &&
      TreeShaped(nodes) &&
      forall k :: InTree(TreeOfRoots(nodes, RootsOf(family, nodes)), k) <==> k in keys
  {
    FamilyRoots(lin, phash, family, keys);
    var nodes := NodesOf(family);
    var roots := RootsOf(family, nodes);
    TreeOfRootsCovers(nodes, roots);
    TreeOfRootsEdges(nodes, roots);
    forall k | InTree(TreeOfRoots(nodes, roots), k) ensures k in keys {
      InTreeSound(TreeOfRoots(nodes, roots), nodes, k);
    }
  }

  /** The top of the tree lists the family's roots, in (generation,
      first_seen) order. */
  lemma FamilyTreeTops(lin: Lineage, phash: string, family: seq<Member>, keys: set<string>)
    requires Forest(lin) && Sorted(family, FamilyLe)
    requires forall k :: k in keys ==> k in lin && lin[k].videoHash == k
    requires forall m :: m in family ==> m.node.videoHash in keys && m == MemberOf(lin, phash, m.node.videoHash)
    requires forall k :: k in keys ==> MemberOf(lin, phash, k) in family
    ensures var nodes := NodesOf(family);
      var roots := RootsOf(family, nodes);
      (forall k :: k in roots ==> k in keys && k in nodes) &&
      TreeShaped(nodes) &&
      TopKeys(TreeOfRoots(nodes, roots)) == roots &&
      (forall k :: k in roots <==> k in keys && (lin[k].parent.None? || lin[k].parent.value !in keys)) &&
      (forall i, j :: 0 <= i < j < |roots| ==> NodeLe(lin[roots[i]], lin[roots[j]]))
  {
    FamilyRoots(lin, phash, family, keys);
    FamilyRootsOrdered(lin, phash, family, keys);
    var nodes := NodesOf(family);
    TopKeysOfRoots(nodes, RootsOf(family, nodes));
  }

  /** The roots of a sorted family are family keys in (generation,
      first_seen) order. */
  lemma FamilyRootsOrdered(lin: Lineage, phash: string, family: seq<Member>, keys: set<string>)
    requires Sorted(family, FamilyLe)
    requires forall k :: k in keys ==> k in lin && lin[k].videoHash == k
    requires forall m :: m in family ==> m.node.videoHash in keys && m == MemberOf(lin, phash, m.node.videoHash)
    requires forall k :: k in keys ==> MemberOf(lin, phash, k) in family
    ensures var roots := RootsOf(family, NodesOf(family));
      (forall k :: k in roots ==> k in keys) &&
      forall i, j :: 0 <= i < j < |roots| ==> NodeLe(lin[roots[i]], lin[roots[j]])
  {
    FamilyNodeKeys(lin, phash, family, keys);
    var nodes := NodesOf(family);
    RootsSorted(family, nodes);
  }

  /** A family sorted by (generation, first_seen) has a root: its first
      member, whose parent would be a generation older. */
  lemma FirstMemberIsRoot(family: seq<Member>, nodes: map<string, Node>)
    requires |family| > 0 && Sorted(family, FamilyLe) && TreeShaped(nodes)
    requires forall m :: m in family ==> m.node.videoHash in nodes && nodes[m.node.videoHash] == m.node
    requires forall k :: k in nodes ==> exists m :: m in family && m.node.videoHash == k
    ensures |RootsOf(family, nodes)| >= 1 && RootsOf(family, nodes)[0] == family[0].node.videoHash
  {
    var n := family[0].node;
    forall k | k in nodes
      ensures nodes[k].generation >= n.generation
    {
      var m :| m in family && m.node.videoHash == k;
      var i :| 0 <= i < |family| && family[i] == m;
      if i > 0 {
        assert FamilyLe(family[0], family[i]);
      }
    }
  }

  /** Every tree `get_family_tree` returns for a non-empty family has real
      edges, and with one root it is that root's subtree. */
  lemma TreeOfRootsEdges(nodes: map<string, Node>, roots: seq<string>)
    requires TreeShaped(nodes) && forall k :: k in roots ==> k in nodes
    ensures Edges(TreeOfRoots(nodes, roots), nodes)
  {
    if |roots| == 1 {
      BuildSubtreeEdges(nodes, roots[0]);
    } else {
      forall i | 0 <= i < |roots| {
        BuildSubtreeEdges(nodes, roots[i]);
      }
    }
  }

  /** Whether hash k appears somewhere in a tree. */
  predicate InTree(t: FamilyTree, k: string)
  {
    match t
    case NoTree => false
    case Subtree(n, cs) => n.videoHash == k || exists i :: 0 <= i < |cs| && InTree(cs[i], k)
    case MultipleOrigins(_, rs) => exists i :: 0 <= i < |rs| && InTree(rs[i], k)
  }

  /** The hash at the top of a subtree. */
  function TopHash(t: FamilyTree): string
  {
    if t.Subtree? then t.node.videoHash else ""
  }

  /** The hashes at the top of a tree: the one root of a subtree, or the
      roots gathered by a 'Multiple Origins' container. */
  function TopKeys(t: FamilyTree): (r: seq<string>)
  {
    match t
    case NoTree => []
    case Subtree(n, _) => [n.videoHash]
    case MultipleOrigins(_, rs) => seq(|rs|, i requires 0 <= i < |rs| => TopHash(rs[i]))
  }

  /** A member's parent in the family lists it among its children. */
  ghost predicate ParentsListChildren(nodes: map<string, Node>)
  {
    forall k :: k in nodes && nodes[k].parent.Some? && nodes[k].parent.value in nodes ==>
      k in nodes[nodes[k].parent.value].children
  }

  lemma SubForestListsChildren(lin: Lineage, nodes: map<string, Node>)
    requires Forest(lin)
    requires forall k :: k in nodes ==> k in lin && nodes[k] == lin[k]
    ensures ParentsListChildren(nodes)
  {
    forall k | k in nodes && nodes[k].parent.Some? && nodes[k].parent.value in nodes
      ensures k in nodes[nodes[k].parent.value].children
    {
      assert ParentLinked(lin, k);
    }
  }

  /** Every hash in a tree with real edges belongs to the family. */
  lemma {:induction false} InTreeSound(t: FamilyTree, nodes: map<string, Node>, k: string)
    requires Edges(t, nodes) && InTree(t, k)
    ensures k in nodes
  {
    match t
    case Subtree(n, cs) =>
      if n.videoHash != k {
        var i :| 0 <= i < |cs| && InTree(cs[i], k);
        InTreeSound(cs[i], nodes, k);
      }
    case MultipleOrigins(_, rs) =>
      var i :| 0 <= i < |rs| && InTree(rs[i], k);
      InTreeSound(rs[i], nodes, k);
  }

  /** A subtree holding p also holds each in-family child of p. */
  lemma {:induction false} ChildInSubtree(nodes: map<string, Node>, r: string, p: string, c: string)
    requires TreeShaped(nodes) && r in nodes && p in nodes && c in nodes
    requires InTree(BuildSubtree(nodes, r), p) && c in nodes[p].children
    ensures InTree(BuildSubtree(nodes, r), c)
    decreases Deeper(nodes, nodes[r].generation)
  {
    var t := BuildSubtree(nodes, r);
    var kids := InFamily(nodes[r].children, nodes);
    if t.node.videoHash == p {
      assert r == p;
      var i :| 0 <= i < |kids| && kids[i] == c;
      assert t.children[i].node == nodes[c];
      assert InTree(t.children[i], c);
    } else {
      var i :| 0 <= i < |t.children| && InTree(t.children[i], p);
      var k := kids[i];
      assert t.children[i] == BuildSubtree(nodes, k);
      DeeperShrinks(nodes, r, k);
      ChildInSubtree(nodes, k, p, c);
    }
  }

  /** Going down to an in-family child leaves the parent behind. */
  lemma DeeperShrinks(nodes: map<string, Node>, r: string, k: string)
    requires TreeShaped(nodes) && r in nodes && k in nodes && k in nodes[r].children
    ensures Deeper(nodes, nodes[k].generation) < Deeper(nodes, nodes[r].generation)
  {
    assert nodes[k].generation == nodes[r].generation + 1;
    assert r in Deeper(nodes, nodes[r].generation) && r !in Deeper(nodes, nodes[k].generation);
  }

  /** Members strictly above generation g. */
  function Shallower(nodes: map<string, Node>, g: int): set<string>
  {
    set j | j in nodes && nodes[j].generation < g
  }

  /** Every member lies under some root: follow parent links inside the
      family until a member whose parent is absent or outside it. */
  lemma {:induction false} MemberUnderRoot(nodes: map<string, Node>, roots: seq<string>, j: string)
    requires TreeShaped(nodes) && ParentsListChildren(nodes) && j in nodes
    requires forall k :: k in roots ==> k in nodes
    requires forall k :: k in nodes && (nodes[k].parent.None? || nodes[k].parent.value !in nodes) ==> k in roots
    ensures exists r :: r in roots && InTree(BuildSubtree(nodes, r), j)
    decreases Shallower(nodes, nodes[j].generation)
  {
    if nodes[j].parent.None? || nodes[j].parent.value !in nodes {
      assert InTree(BuildSubtree(nodes, j), j);
    } else {
      var p := nodes[j].parent.value;
      assert p in Shallower(nodes, nodes[j].generation) && p !in Shallower(nodes, nodes[p].generation);
      MemberUnderRoot(nodes, roots, p);
      var r :| r in roots && InTree(BuildSubtree(nodes, r), p);
      ChildInSubtree(nodes, r, p, j);
    }
  }

  /** The tree over the roots holds every member. */
  lemma TreeOfRootsCovers(nodes: map<string, Node>, roots: seq<string>)
    requires TreeShaped(nodes) && ParentsListChildren(nodes)
    requires forall k :: k in roots ==> k in nodes
    requires forall k :: k in nodes && (nodes[k].parent.None? || nodes[k].parent.value !in nodes) ==> k in roots
    ensures forall j :: j in nodes ==> InTree(TreeOfRoots(nodes, roots), j)
  {
    forall j | j in nodes ensures InTree(TreeOfRoots(nodes, roots), j) {
      MemberUnderRoot(nodes, roots, j);
      var r :| r in roots && InTree(BuildSubtree(nodes, r), j);
      UnderRootInTree(nodes, roots, r, j);
    }
  }

  /** A hash under one of the roots is in the tree over them. */
  lemma UnderRootInTree(nodes: map<string, Node>, roots: seq<string>, r: string, j: string)
    requires TreeShaped(nodes) && forall k :: k in roots ==> k in nodes
    requires r in roots && InTree(BuildSubtree(nodes, r), j)
    ensures InTree(TreeOfRoots(nodes, roots), j)
  {
    var i :| 0 <= i < |roots| && roots[i] == r;
    if |roots| != 1 {
      var t := TreeOfRoots(nodes, roots);
      assert t.roots[i] == BuildSubtree(nodes, r);
    }
  }

  /** The top keys of the tree over the roots are the roots, in order. */
  lemma TopKeysOfRoots(nodes: map<string, Node>, roots: seq<string>)
    requires TreeShaped(nodes) && forall k :: k in roots ==> k in nodes
    ensures TopKeys(TreeOfRoots(nodes, roots)) == roots
  {
    var t := TreeOfRoots(nodes, roots);
    if |roots| != 1 {
      assert forall i :: 0 <= i < |roots| ==> TopKeys(t)[i] == roots[i];
    }
  }

  // ---------------------------------------------------------------------
  // Spread timeline

  datatype TimelineEntry = TimelineEntry(event: SpreadEvent, generation: int, isDeepfake: bool)

  /** The join of spread events with the lineage table, restricted to the
      given hashes, in table order. */
  function TimelineRows(events: seq<SpreadEvent>, lin: Lineage, hashes: set<string>): (r: seq<TimelineEntry>)
    ensures |r| <= |events|
  {
    if |events| == 0 then []
    else
      var e := events[0];
      (if e.videoHash in hashes && e.videoHash in lin
       then [TimelineEntry(e, lin[e.videoHash].generation, lin[e.videoHash].isDeepfake)] else [])
      + TimelineRows(events[1..], lin, hashes)
  }

  /** A timeline row is exactly a recorded event of one of the hashes that is
      also registered, with that row's generation and flag. */
  lemma {:induction false} TimelineRowsMembers(events: seq<SpreadEvent>, lin: Lineage, hashes: set<string>)
    ensures forall t :: t in TimelineRows(events, lin, hashes) <==>
      t.event in events && t.event.videoHash in hashes && t.event.videoHash in lin &&
      t.generation == lin[t.event.videoHash].generation && t.isDeepfake == lin[t.event.videoHash].isDeepfake
  {
    if |events| > 0 {
      TimelineRowsMembers(events[1..], lin, hashes);
      assert forall e :: e in events <==> e == events[0] || e in events[1..];
    }
  }

  predicate EntryLe(a: TimelineEntry, b: TimelineEntry)
  {
    a.event.discoveredAt <= b.event.discoveredAt
  }

  lemma EntryLeIsPreorder()
    ensures TotalPreorder(EntryLe)
  {
  }

  // ---------------------------------------------------------------------
  // Statistics

  datatype LineageStats = LineageStats(
    totalVideos: nat,
    deepfakes: nat,
    authentic: nat,
    uniqueFamilies: nat,
    generations: map<int, nat>,
    platformSpread: map<string, nat>,
    avgMutationsPerFamily: real)

  function CountPlatform(events: seq<SpreadEvent>, p: string): (n: nat)
    ensures n <= |events|
    ensures n > 0 <==> exists e :: e in events && e.platform == p
  {
    if |events| == 0 then 0
    else (if events[0].platform == p then 1 else 0) + CountPlatform(events[1..], p)
  }

  /** `get_statistics`: row counts by flag and by generation, event counts by
      platform, generation-0 rows as families, and the non-root rows per
      family. */
  function Statistics(lin: Lineage, events: seq<SpreadEvent>): LineageStats
  {
    var total := |lin.Keys|;
    var deepfakes := |set k | k in lin && lin[k].isDeepfake|;
    var authentic := |set k | k in lin && !lin[k].isDeepfake|;
    var unique := |set k | k in lin && lin[k].generation == 0|;
    var gens := set k | k in lin :: lin[k].generation;
    var generations := map g | g in gens :: |set k | k in lin && lin[k].generation == g|;
    var platforms := map p | p in (set e | e in events :: e.platform) :: CountPlatform(events, p);
    LineageStats(total, deepfakes, authentic, unique, generations, platforms, MutationsPerFamily(total, unique))
  }

  /** `avg_mutations_per_family`: the non-root rows per family, dividing by
      at least one. */
  function MutationsPerFamily(total: nat, unique: nat): (avg: real)
    ensures unique <= total ==> avg >= 0.0 && (avg == 0.0 <==> unique == total)
  {
    (total - unique) as real / (if unique > 1 then unique else 1) as real
  }

  /** Deepfake and authentic counts partition the table. */
  lemma StatisticsPartition(lin: Lineage, events: seq<SpreadEvent>)
    ensures Statistics(lin, events).deepfakes + Statistics(lin, events).authentic == Statistics(lin, events).totalVideos
  {
    var deep := set k | k in lin && lin[k].isDeepfake;
    var auth := set k | k in lin && !lin[k].isDeepfake;
    assert deep + auth == lin.Keys;
    SplitCard(deep, auth);
  }

  /** In a forest the generation-0 rows are exactly the roots. */
  lemma RootsAreGenerationZero(lin: Lineage)
    requires Forest(lin)
    ensures (set k | k in lin && lin[k].generation == 0) == (set k | k in lin && lin[k].parent.None?)
  {
    forall k | k in lin && lin[k].generation == 0
      ensures lin[k].parent.None?
    {
    }
  }

  /** In a forest the families are exactly the roots, there is one as soon as
      there is a row, and the per-family average is zero exactly when every
      row is a root. */
  lemma StatisticsFamilies(lin: Lineage, events: seq<SpreadEvent>)
    requires Forest(lin)
    ensures var s := Statistics(lin, events);
      s.uniqueFamilies == |set k | k in lin && lin[k].parent.None?| &&
      s.uniqueFamilies <= s.totalVideos &&
      (s.totalVideos > 0 ==> s.uniqueFamilies >= 1) &&
      s.avgMutationsPerFamily >= 0.0 &&
      (s.avgMutationsPerFamily == 0.0 <==> forall k :: k in lin ==> lin[k].parent.None?)
  {
    StatisticsRoots(lin, events);
    StatisticsAverage(lin, events);
  }

  lemma StatisticsRoots(lin: Lineage, events: seq<SpreadEvent>)
    requires Forest(lin)
    ensures var s := Statistics(lin, events);
      s.uniqueFamilies == |set k | k in lin && lin[k].parent.None?| &&
      s.uniqueFamilies <= s.totalVideos &&
      (s.totalVideos > 0 ==> s.uniqueFamilies >= 1)
  {
    var roots := set k | k in lin && lin[k].parent.None?;
    RootsAreGenerationZero(lin);
    SubsetCard(roots, lin.Keys);
    if |lin.Keys| > 0 {
      SomeRoot(lin);
    }
  }

  lemma StatisticsAverage(lin: Lineage, events: seq<SpreadEvent>)
    requires Forest(lin)
    ensures var s := Statistics(lin, events);
      s.avgMutationsPerFamily >= 0.0 &&
      (s.avgMutationsPerFamily == 0.0 <==> forall k :: k in lin ==> lin[k].parent.None?)
  {
    var roots := set k | k in lin && lin[k].parent.None?;
    RootsAreGenerationZero(lin);
    SubsetCard(roots, lin.Keys);
    AllRootsIff(lin);
  }

  /** A non-empty forest has a root: the ancestor of any row at its own
      generation. */
  lemma SomeRoot(lin: Lineage)
    requires Forest(lin) && |lin.Keys| > 0
    ensures |set k | k in lin && lin[k].parent.None?| >= 1
  {
    var roots := set k | k in lin && lin[k].parent.None?;
    var row :| row in lin;
    ForestAcyclic(lin, row);
    var r := Ancestor(lin, row, lin[row].generation);
    assert r in roots;
    SubsetCard({r}, roots);
  }

  /** The roots are as many as the rows exactly when every row is a root. */
  lemma AllRootsIff(lin: Lineage)
    ensures |set k | k in lin && lin[k].parent.None?| == |lin.Keys| <==> forall k :: k in lin ==> lin[k].parent.None?
  {
    var roots := set k | k in lin && lin[k].parent.None?;
    if forall k :: k in lin ==> lin[k].parent.None? {
      assert roots == lin.Keys;
    } else {
      var k :| k in lin && !lin[k].parent.None?;
      SubsetCard(roots, lin.Keys - {k});
    }
  }

  /** Disjoint sets: the size of the union is the sum of the sizes. */
  lemma SplitCard(a: set<string>, b: set<string>)
    requires a * b == {}
    ensures |a + b| == |a| + |b|
  {
  }

  lemma SubsetCard(a: set<string>, b: set<string>)
    requires a <= b
    ensures |a| <= |b|
  {
    assert b == a + (b - a);
    SplitCard(a, b - a);
  }
}
