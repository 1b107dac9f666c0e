/** Reference locations of the converted method: the locations of all its
    references, flattened into one list and grouped by document, then the
    lookup of the declaring document's group. */
module References {
  import opened Wrappers

  /** Identity of a document in the solution. */
  datatype DocumentId = DocumentId(id: nat)

  /** A place where the method's symbol is used: a document and a position in it. */
  datatype ReferenceLocation = ReferenceLocation(document: DocumentId, position: nat)

  /** The locations that share one document, in the order they were found. */
  datatype Group = Group(key: DocumentId, locations: seq<ReferenceLocation>)

  /** The documents some location lies in. */
  function DocumentsOf(refs: seq<ReferenceLocation>): set<DocumentId> {
    set i | 0 <= i < |refs| :: refs[i].document
  }

  /** The keys of a list of groups. */
  function Keys(groups: seq<Group>): set<DocumentId> {
    set i | 0 <= i < |groups| :: groups[i].key
  }

  /** Reference definition of one group's contents: the locations in `d`, in order. */
  function LocationsIn(refs: seq<ReferenceLocation>, d: DocumentId): (r: seq<ReferenceLocation>)
    ensures |r| <= |refs|
    ensures forall k :: 0 <= k < |r| ==> r[k].document == d && r[k] in refs
  {
    if |refs| == 0 then []
    else if refs[0].document == d then [refs[0]] + LocationsIn(refs[1..], d)
    else LocationsIn(refs[1..], d)
  }

  /** Index of the first location in `d`, or `|refs|` when there is none. */
  function FirstIndex(refs: seq<ReferenceLocation>, d: DocumentId): (k: nat)
    ensures k <= |refs|
    ensures k < |refs| <==> d in DocumentsOf(refs)
    ensures k < |refs| ==> refs[k].document == d
  {
    if |refs| == 0 then 0
    else if refs[0].document == d then 0
    else
      assert DocumentsOf(refs) == {refs[0].document} + DocumentsOf(refs[1..]) by {
        assert forall i :: 1 <= i < |refs| ==> refs[i] == refs[1..][i - 1];
      }
      1 + FirstIndex(refs[1..], d)
  }

  /** Appending a location leaves every earlier first appearance where it was. */
  lemma {:induction false} FirstIndexSnoc(refs: seq<ReferenceLocation>, x: ReferenceLocation, d: DocumentId)
    ensures FirstIndex(refs + [x], d) == FirstIndex(refs, d) || FirstIndex(refs, d) == |refs|
    ensures FirstIndex(refs, d) == |refs| && x.document == d ==> FirstIndex(refs + [x], d) == |refs|
  {
    if |refs| == 0 {
      assert refs + [x] == [x];
      assert [x][1..] == [];
    } else {
      assert (refs + [x])[1..] == refs[1..] + [x];
      FirstIndexSnoc(refs[1..], x, d);
    }
  }

  /** A document no location lies in has an empty group. */
  lemma {:induction false} LocationsInAbsent(refs: seq<ReferenceLocation>, d: DocumentId)
    requires d !in DocumentsOf(refs)
    ensures LocationsIn(refs, d) == []
  {
    if |refs| > 0 {
      assert refs[0].document in DocumentsOf(refs);
      assert DocumentsOf(refs[1..]) <= DocumentsOf(refs) by {
        assert forall i :: 0 <= i < |refs[1..]| ==> refs[1..][i] == refs[i + 1];
      }
      LocationsInAbsent(refs[1..], d);
    }
  }

  /** Filtering distributes over appending one location at the end. */
  lemma {:induction false} LocationsInSnoc(refs: seq<ReferenceLocation>, x: ReferenceLocation, d: DocumentId)
    ensures LocationsIn(refs + [x], d)
         == LocationsIn(refs, d) + (if x.document == d then [x] else [])
  {
    if |refs| == 0 {
      assert refs + [x] == [x];
      assert [x][1..] == [];
    } else {
      assert (refs + [x])[1..] == refs[1..] + [x];
      LocationsInSnoc(refs[1..], x, d);
    }
  }

  /** Index of the first group whose key is `d`, or `|groups|` when there is none. */
  function IndexOfKey(groups: seq<Group>, d: DocumentId): (k: nat)
    ensures k <= |groups|
    ensures k < |groups| ==> groups[k].key == d
    ensures forall i :: 0 <= i < k ==> groups[i].key != d
  {
    if |groups| == 0 then 0
    else if groups[0].key == d then 0
    else 1 + IndexOfKey(groups[1..], d)
  }

  /** What it means for `groups` to be `refs` grouped by document: one group
      per document some location lies in, no document twice, and each group
      holding exactly that document's locations in their original order; the
      groups themselves come in order of each document's first appearance. */
  ghost predicate IsGroupingOf(groups: seq<Group>, refs: seq<ReferenceLocation>) {
    && DistinctKeys(groups)
    && (forall i :: 0 <= i < |groups| ==> groups[i].locations == LocationsIn(refs, groups[i].key))
    && (forall i :: 0 <= i < |groups| ==> groups[i].locations != [])
    && Keys(groups) == DocumentsOf(refs)
    && InFirstAppearanceOrder(groups, refs)
  }

  /** No document has two groups. */
  ghost predicate DistinctKeys(groups: seq<Group>) {
    forall i, j :: 0 <= i < j < |groups| ==> groups[i].key != groups[j].key
  }

  /** Groups are listed in the order their documents first occur in `refs`. */
  ghost predicate InFirstAppearanceOrder(groups: seq<Group>, refs: seq<ReferenceLocation>) {
    forall i, j :: 0 <= i < j < |groups| ==>
      FirstIndex(refs, groups[i].key) < FirstIndex(refs, groups[j].key)
  }

  /** Files one more location: appended to its document's group when there is
      one, otherwise in a new group opened at the end of the list. */
  function AddLocation(groups: seq<Group>, loc: ReferenceLocation): seq<Group> {
    var k := IndexOfKey(groups, loc.document);
    if k < |groups| then groups[k := Group(loc.document, groups[k].locations + [loc])]
    else groups + [Group(loc.document, [loc])]
  }

  /** The documents of a sequence grown by one location. */
  lemma DocumentsOfSnoc(prefix: seq<ReferenceLocation>, loc: ReferenceLocation)
    ensures DocumentsOf(prefix + [loc]) == DocumentsOf(prefix) + {loc.document}
  {
    var refs := prefix + [loc];
    assert forall i :: 0 <= i < |prefix| ==> refs[i] == prefix[i];
    assert refs[|prefix|] == loc;
  }

  /** Filing a location whose document already has a group touches only that
      group's contents. */
  lemma AddToExistingGroup(groups: seq<Group>, prefix: seq<ReferenceLocation>, loc: ReferenceLocation, k: nat)
    requires IsGroupingOf(groups, prefix)
    requires k < |groups| && groups[k].key == loc.document
    ensures IsGroupingOf(groups[k := Group(loc.document, groups[k].locations + [loc])], prefix + [loc])
  {
    var refs := prefix + [loc];
    var after := groups[k := Group(loc.document, groups[k].locations + [loc])];
    assert forall i :: 0 <= i < |after| ==> after[i].key == groups[i].key;
    DocumentsOfSnoc(prefix, loc);
    assert Keys(after) == Keys(groups);
    forall d ensures LocationsIn(refs, d)
        == LocationsIn(prefix, d) + (if loc.document == d then [loc] else []) {
      LocationsInSnoc(prefix, loc, d);
    }
    forall i | 0 <= i < |groups| ensures FirstIndex(refs, groups[i].key) == FirstIndex(prefix, groups[i].key) {
      FirstIndexSnoc(prefix, loc, groups[i].key);
      assert groups[i].key in Keys(groups);
    }
  }

  /** Filing a location of a document not seen before opens a group for it at
      the end, after every document that appeared earlier. */
  lemma AddNewGroup(groups: seq<Group>, prefix: seq<ReferenceLocation>, loc: ReferenceLocation)
    requires IsGroupingOf(groups, prefix)
    requires loc.document !in Keys(groups)
    ensures IsGroupingOf(groups + [Group(loc.document, [loc])], prefix + [loc])
  {
    var refs := prefix + [loc];
    var n := |groups|;
    var after := groups + [Group(loc.document, [loc])];
    LocationsInAbsent(prefix, loc.document);
    LocationsInSnoc(prefix, loc, loc.document);
    forall i | 0 <= i < n
      ensures after[i] == groups[i] && groups[i].key != loc.document
      ensures after[i].locations == LocationsIn(refs, after[i].key)
    {
      assert groups[i].key in Keys(groups);
      LocationsInSnoc(prefix, loc, groups[i].key);
    }
    assert after[n] == Group(loc.document, [loc]);
    assert after[n].locations == LocationsIn(refs, after[n].key);
    DocumentsOfSnoc(prefix, loc);
    assert Keys(after) == Keys(groups) + {loc.document} by {
      assert forall i :: 0 <= i < n ==> after[i].key == groups[i].key;
    }
    NewGroupComesLast(groups, prefix, loc);
  }

  /** A document met for the first time appears after every document already grouped. */
  lemma NewGroupComesLast(groups: seq<Group>, prefix: seq<ReferenceLocation>, loc: ReferenceLocation)
    requires InFirstAppearanceOrder(groups, prefix)
    requires Keys(groups) == DocumentsOf(prefix)
    requires loc.document !in Keys(groups)
    ensures InFirstAppearanceOrder(groups + [Group(loc.document, [loc])], prefix + [loc])
  {
    var refs := prefix + [loc];
    var n := |groups|;
    var after := groups + [Group(loc.document, [loc])];
    FirstIndexSnoc(prefix, loc, loc.document);
    forall i | 0 <= i < n
      ensures FirstIndex(refs, after[i].key) == FirstIndex(prefix, groups[i].key) < |prefix|
    {
      assert after[i] == groups[i];
      assert groups[i].key in Keys(groups);
      FirstIndexSnoc(prefix, loc, groups[i].key);
    }
    forall i, j | 0 <= i < j < n + 1
      ensures FirstIndex(refs, after[i].key) < FirstIndex(refs, after[j].key)
    {
      if j == n {
        assert after[j].key == loc.document;
      } else {
        assert after[j] == groups[j];
      }
    }
  }

  /** Filing the next location keeps a grouping a grouping. */
  lemma AddLocationKeepsGrouping(groups: seq<Group>, prefix: seq<ReferenceLocation>, loc: ReferenceLocation)
    requires IsGroupingOf(groups, prefix)
    ensures IsGroupingOf(AddLocation(groups, loc), prefix + [loc])
  {
    var k := IndexOfKey(groups, loc.document);
    if k < |groups| {
      AddToExistingGroup(groups, prefix, loc, k);
    } else {
      AddNewGroup(groups, prefix, loc);
    }
  }

  /** Grouping of reference locations by document, filing them one by one. */
  function GroupByDocument(refs: seq<ReferenceLocation>): (groups: seq<Group>)
    ensures IsGroupingOf(groups, refs)
    decreases |refs|
  {
    if |refs| == 0 then []
    else
      var prefix := refs[..|refs| - 1];
      var before := GroupByDocument(prefix);
      AddLocationKeepsGrouping(before, prefix, refs[|refs| - 1]);
      assert prefix + [refs[|refs| - 1]] == refs;
      AddLocation(before, refs[|refs| - 1])
  }

  /** The group whose key is `d`, or `None` (C#'s `FirstOrDefault` returning null). */
  function FindGroup(groups: seq<Group>, d: DocumentId): (r: Option<Group>)
    ensures r.Some? <==> d in Keys(groups)
    ensures r.Some? ==> r.value.key == d && r.value in groups
  {
    if |groups| == 0 then None
    else if groups[0].key == d then Some(groups[0])
    else
      assert Keys(groups) == {groups[0].key} + Keys(groups[1..]) by {
        assert forall i :: 1 <= i < |groups| ==> groups[i] == groups[1..][i - 1];
      }
      FindGroup(groups[1..], d)
  }

  /** Looking up a document among the grouped references finds a group exactly
      when some reference lies in that document, and the group found holds
      every such reference and nothing else. */
  lemma FindGroupOfGrouping(refs: seq<ReferenceLocation>, d: DocumentId)
    ensures FindGroup(GroupByDocument(refs), d).Some?
        <==> exists i :: 0 <= i < |refs| && refs[i].document == d
    ensures FindGroup(GroupByDocument(refs), d).Some? ==>
              FindGroup(GroupByDocument(refs), d).value.locations == LocationsIn(refs, d)
  {
  }
}
