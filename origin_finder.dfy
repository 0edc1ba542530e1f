/** The lineage engine: registration of videos into a forest of parent links
    found by perceptual-hash similarity, family search, origin, family tree,
    spread timeline and statistics. The lineage, band and spread-event tables
    are fields; the clock is a parameter. */
module OriginTracking {
  import opened Wrappers
  import opened Sorting
  import opened LineageHashing
  import opened LineageModel

  class OriginFinder {
    var lineage: Lineage
    var bandTable: BandTable
    var events: seq<SpreadEvent>
    const hammingThreshold: int
    const numLshBands: int

    ghost predicate Valid()
      reads this
    {
      numLshBands != 0 && Forest(lineage)
    }

    /** A finder over empty tables (defaults in the source: threshold 12,
        five bands). */
    constructor (hammingThreshold: int, numLshBands: int)
      requires numLshBands != 0
      ensures Valid()
      ensures lineage == map[] && bandTable == map[] && events == []
      ensures this.hammingThreshold == hammingThreshold && this.numLshBands == numLshBands
    {
      this.hammingThreshold := hammingThreshold;
      this.numLshBands := numLshBands;
      lineage := map[];
      bandTable := map[];
      events := [];
    }

    ghost function FamilyKeysOf(phash: string): set<string>
      reads this
      requires numLshBands != 0
    {
      FamilyKeys(lineage, bandTable, numLshBands, hammingThreshold, phash)
    }

    ghost function FamilyOf(phash: string): set<Member>
      reads this
      requires numLshBands != 0
    {
      FamilyMembers(lineage, bandTable, numLshBands, hammingThreshold, phash)
    }

    /** The band queries of `find_family`. */
    method CollectCandidates(query: seq<string>) returns (candidates: set<string>)
      ensures candidates == CandidatesUpTo(bandTable, query, |query|)
    {
      candidates := {};
      var i := 0;
      while i < |query|
        invariant 0 <= i <= |query|
        invariant candidates == CandidatesUpTo(bandTable, query, i)
      {
        candidates := candidates + BandMatches(bandTable, query, i);
        i := i + 1;
      }
    }

    /** The distance filter of `find_family`, over the candidates in any
        order: one member per registered candidate within the threshold. */
    method ScoreCandidates(phash: string, candidates: set<string>) returns (members: seq<Member>)
      requires Valid()
      ensures multiset(members) == multiset(Scored(lineage, hammingThreshold, phash, candidates))
    {
      members := [];
      var remaining := candidates;
      assert Scored(lineage, hammingThreshold, phash, candidates - remaining) == {};
      while remaining != {}
        invariant remaining <= candidates
        invariant multiset(members) == multiset(Scored(lineage, hammingThreshold, phash, candidates - remaining))
        decreases |remaining|
      {
        var c :| c in remaining;
        var done := candidates - remaining;
        ScoredMultisetStep(lineage, hammingThreshold, phash, done, c);
        if c in lineage {
          var distance := HexDistance(phash, lineage[c].perceptualHash);
          if distance <= hammingThreshold {
            var m := Member(lineage[c], distance);
            assert m == MemberOf(lineage, phash, c);
            assert multiset(members + [m]) == multiset(members) + multiset{m};
            members := members + [m];
          }
        }
        remaining := remaining - {c};
        assert candidates - remaining == done + {c};
      }
      assert candidates - remaining == candidates;
    }

    /** `find_family`: the family of a perceptual hash sorted by
        (generation, first_seen), or None when it is empty. */
    method FindFamily(phash: string) returns (family: Option<seq<Member>>)
      requires Valid()
      ensures family.None? <==> FamilyKeysOf(phash) == {}
      ensures family.Some? ==>
        Sorted(family.value, FamilyLe) && multiset(family.value) == multiset(FamilyOf(phash)) &&
        |family.value| > 0 &&
        (forall m :: m in family.value <==> m in FamilyOf(phash)) &&
        (forall m :: m in family.value ==>
          m.node.videoHash in FamilyKeysOf(phash) && m == MemberOf(lineage, phash, m.node.videoHash)) &&
        (forall k :: k in FamilyKeysOf(phash) ==> MemberOf(lineage, phash, k) in family.value)
    {
      FamilyMembership(lineage, bandTable, numLshBands, hammingThreshold, phash);
      var query := ComputeHexBands(phash, numLshBands);
      var candidates := CollectCandidates(query);
      if candidates == {} {
        return None;
      }
      var members := ScoreCandidates(phash, candidates);
      var sorted := SortBy(members, FamilyLe);
      OrdersArePreorders();
      SortBySorted(members, FamilyLe);
      SortByPermutation(members, FamilyLe);
      SameElements(sorted, FamilyOf(phash));
      if |sorted| == 0 {
        return None;
      }
      family := Some(sorted);
    }

    /** `find_origin`: the first family member by (generation, first_seen). */
    method FindOrigin(phash: string) returns (origin: Option<Member>)
      requires Valid()
      ensures origin.None? <==> FamilyKeysOf(phash) == {}
      ensures origin.Some? ==>
        origin.value in FamilyOf(phash) && forall m :: m in FamilyOf(phash) ==> FamilyLe(origin.value, m)
    {
      var family := FindFamily(phash);
      if family.None? {
        return None;
      }
      var fam := family.value;
      OrdersArePreorders();
      var i := FirstMinIndex(fam, FamilyLe);
      SortedFirstMin(fam, FamilyLe);
      origin := Some(fam[i]);
      forall m | m in FamilyOf(phash)
        ensures FamilyLe(fam[0], m)
      {
        var j :| 0 <= j < |fam| && fam[j] == m;
      }
    }

    /** `_add_child_to_parent`. */
    method AddChildToParent(parentHash: string, childHash: string)
      modifies this
      ensures lineage == AddChild(old(lineage), parentHash, childHash)
      ensures bandTable == old(bandTable) && events == old(events)
    {
      if parentHash in lineage {
        var children := lineage[parentHash].children;
        if childHash !in children {
          children := children + [childHash];
          lineage := lineage[parentHash := lineage[parentHash].(children := children)];
        }
      }
    }

    /** `_store_node`: insert or replace the row, then write its bands. */
    method StoreNode(node: Node)
      requires numLshBands != 0
      modifies this
      ensures lineage == old(lineage)[node.videoHash := node]
      ensures bandTable == StoreBands(old(bandTable), node.videoHash, HexBands(node.perceptualHash, numLshBands))
      ensures events == old(events)
    {
      lineage := lineage[node.videoHash := node];
      var bands := ComputeHexBands(node.perceptualHash, numLshBands);
      var i := 0;
      while i < |bands|
        invariant 0 <= i <= |bands|
        invariant bandTable == StoreBands(old(bandTable), node.videoHash, bands[..i])
        invariant lineage == old(lineage)[node.videoHash := node] && events == old(events)
      {
        assert bands[..i + 1][..i] == bands[..i];
        bandTable := bandTable[(node.videoHash, i) := bands[i]];
        i := i + 1;
      }
      assert bands[..|bands|] == bands;
    }

    /** The parent choice of `register_video`: among the family members
        seen before `now`, the closest, ties going to the earliest in family
        order; none when no member is that old. */
    method FindParent(phash: string, now: int) returns (parent: Option<string>)
      requires Valid()
      ensures parent.None? <==> forall k :: k in FamilyKeysOf(phash) ==> lineage[k].firstSeen >= now
      ensures parent.Some? ==>
        var p := parent.value;
        p in FamilyKeysOf(phash) && lineage[p].firstSeen < now &&
        forall k :: k in FamilyKeysOf(phash) && lineage[k].firstSeen < now ==> Preferred(lineage, phash, p, k)
    {
      var family := FindFamily(phash);
      parent := None;
      if family.Some? {
        var chosen := ChooseParent(family.value, now);
        ParentChoice(family.value, now);
        if chosen.Some? {
          parent := Some(chosen.value.node.videoHash);
          forall k | k in FamilyKeysOf(phash) && lineage[k].firstSeen < now
            ensures Preferred(lineage, phash, parent.value, k)
          {
            assert MemberOf(lineage, phash, k) in family.value;
          }
        } else {
          forall k | k in FamilyKeysOf(phash)
            ensures lineage[k].firstSeen >= now
          {
            assert MemberOf(lineage, phash, k) in family.value;
          }
        }
      }
    }

    /** `register_video`. A known hash returns its row and writes nothing.
        Otherwise the new node hangs under the parent `FindParent` picks,
        one generation down, with the mutations detected against it; the
        child is added to the parent and the node stored; the table stays a
        forest. File-based mutation tags are an input. */
    method RegisterVideo(videoHash: string, perceptualHash: string, isDeepfake: bool, confidence: real,
                         sourcePlatform: Option<string>, sourceUrl: Option<string>, fileTags: seq<string>,
                         metadata: map<string, string>, origin: Location, now: int)
      returns (node: Node)
      requires Valid()
      modifies this
      ensures Valid()
      ensures videoHash in old(lineage) ==>
        node == old(lineage)[videoHash] && lineage == old(lineage) && bandTable == old(bandTable)
      ensures events == old(events)
      ensures videoHash !in old(lineage) ==>
        node.videoHash == videoHash && node.perceptualHash == perceptualHash && node.firstSeen == now &&
        node.sourcePlatform == sourcePlatform && node.sourceUrl == sourceUrl && node.children == [] &&
        node.isDeepfake == isDeepfake && node.confidence == confidence && node.metadata == metadata &&
        node.origin == origin &&
        lineage == Attach(old(lineage), node) &&
        bandTable == StoreBands(old(bandTable), videoHash, HexBands(perceptualHash, numLshBands))
      ensures videoHash !in old(lineage) ==>
        (node.parent.None? <==> forall k :: k in old(FamilyKeysOf(perceptualHash)) ==> old(lineage)[k].firstSeen >= now) &&
        (node.parent.None? ==> node.generation == 0 && node.mutations == [])
      ensures videoHash !in old(lineage) && node.parent.Some? ==>
        var p := node.parent.value;
        p in old(FamilyKeysOf(perceptualHash)) && old(lineage)[p].firstSeen < now &&
        node.generation == old(lineage)[p].generation + 1 &&
        node.mutations == DetectMutations(perceptualHash, old(lineage)[p].perceptualHash, fileTags) &&
        forall k :: k in old(FamilyKeysOf(perceptualHash)) && old(lineage)[k].firstSeen < now ==>
          Preferred(old(lineage), perceptualHash, p, k)
    {
      if videoHash in lineage {
        return lineage[videoHash];
      }
      var parentHash := FindParent(perceptualHash, now);
      var generation := 0;
      var mutations: seq<string> := [];
      if parentHash.Some? {
        var parent := lineage[parentHash.value];
        generation := parent.generation + 1;
        mutations := DetectMutations(perceptualHash, parent.perceptualHash, fileTags);
        AddChildToParent(parentHash.value, videoHash);
      }
      node := Node(videoHash, perceptualHash, parentHash, now, sourcePlatform, sourceUrl, mutations,
                   generation, [], isDeepfake, confidence, metadata, origin);
      StoreNode(node);
      AttachPreservesForest(old(lineage), node);
    }

    /** `record_spread_event`: appended as given, stamped `now`; the hash is
        not checked against the lineage table. */
    method RecordSpreadEvent(videoHash: string, platform: string, url: Option<string>,
                             viewCount: Option<int>, shareCount: Option<int>,
                             metadataJson: Option<string>, location: Location, now: int)
      modifies this
      ensures events == old(events) + [SpreadEvent(videoHash, platform, url, now, viewCount, shareCount, metadataJson, location)]
      ensures lineage == old(lineage) && bandTable == old(bandTable)
    {
      events := events + [SpreadEvent(videoHash, platform, url, now, viewCount, shareCount, metadataJson, location)];
    }

    /** `get_spread_timeline`: the registered events of the video's family and
        of the video itself, ordered by discovery time. */
    method GetSpreadTimeline(videoHash: string) returns (timeline: seq<TimelineEntry>)
      requires Valid()
      ensures videoHash !in lineage ==> timeline == []
      ensures videoHash in lineage ==>
        var hashes := FamilyKeysOf(lineage[videoHash].perceptualHash) + {videoHash};
        Sorted(timeline, EntryLe) && multiset(timeline) == multiset(TimelineRows(events, lineage, hashes))
    {
      if videoHash !in lineage {
        return [];
      }
      var phash := lineage[videoHash].perceptualHash;
      var family := FindFamily(phash);
      FamilyMembership(lineage, bandTable, numLshBands, hammingThreshold, phash);
      var familyHashes: set<string> := {};
      if family.Some? {
        familyHashes := set m | m in family.value :: m.node.videoHash;
        assert familyHashes == FamilyKeysOf(phash) by {
          forall k | k in FamilyKeysOf(phash) ensures k in familyHashes {
            assert MemberOf(lineage, phash, k) in family.value;
          }
        }
      }
      var rows := TimelineRows(events, lineage, familyHashes + {videoHash});
      timeline := SortBy(rows, EntryLe);
      EntryLeIsPreorder();
      SortBySorted(rows, EntryLe);
      SortByPermutation(rows, EntryLe);
    }

    /** `get_family_tree`: nothing for an unknown hash or an empty family;
        otherwise the tree over the family's roots, whose edges are real
        parent links. */
    method GetFamilyTree(videoHash: string) returns (tree: FamilyTree)
      requires Valid()
      ensures tree.NoTree? <==> videoHash !in lineage || FamilyKeysOf(lineage[videoHash].perceptualHash) == {}
      ensures !tree.NoTree? ==> Edges(tree, map k | k in FamilyKeysOf(lineage[videoHash].perceptualHash) :: lineage[k])
      ensures tree.MultipleOrigins? ==> tree.generation == -1 && |tree.roots| >= 2
      ensures !tree.NoTree? ==>
        var keys := FamilyKeysOf(lineage[videoHash].perceptualHash);
        (forall k :: InTree(tree, k) <==> k in keys) &&
        (forall k :: k in TopKeys(tree) ==> k in lineage) &&
        (forall k :: k in TopKeys(tree) <==> k in keys && (lineage[k].parent.None? || lineage[k].parent.value !in keys)) &&
        (forall i, j :: 0 <= i < j < |TopKeys(tree)| ==> NodeLe(lineage[TopKeys(tree)[i]], lineage[TopKeys(tree)[j]]))
    {
      if videoHash !in lineage {
        return NoTree;
      }
      var phash := lineage[videoHash].perceptualHash;
      var family := FindFamily(phash);
      if family.None? {
        return NoTree;
      }
      var fam := family.value;
      assert forall k :: k in FamilyKeysOf(phash) ==> k in lineage && lineage[k].videoHash == k;
      FamilyTreeShape(lineage, phash, fam, FamilyKeysOf(phash));
      FamilyTreeMembers(lineage, phash, fam, FamilyKeysOf(phash));
      FamilyTreeTops(lineage, phash, fam, FamilyKeysOf(phash));
      var nodes := NodesOf(fam);
      var roots := RootsOf(fam, nodes);
      tree := TreeOfRoots(nodes, roots);
    }

    /** `get_statistics`. */
    function GetStatistics(): (s: LineageStats)
      reads this
      requires Valid()
      ensures s == Statistics(lineage, events)
      ensures s.deepfakes + s.authentic == s.totalVideos
      ensures s.totalVideos > 0 ==> s.uniqueFamilies >= 1
    {
      StatisticsPartition(lineage, events);
      StatisticsFamilies(lineage, events);
      Statistics(lineage, events)
    }
  }
}
