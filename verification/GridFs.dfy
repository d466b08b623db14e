/** The `contentType` rename between the API's view of GridFS files and the stored documents. */
module GridFs {
  import opened Mongo

  /** A query object with its keys in order. */
  datatype Query = Query(entries: seq<Entry>)

  datatype Entry = Entry(key: string, part: Part)

  /** A condition, the list under a logical operator, or a direction in a sort specification. */
  datatype Part = Test(c: Cond) | Parts(queries: seq<Query>) | Direction(n: int)

  const CONTENT_TYPE := "contentType"
  const METADATA := "metadata"
  const STORED_TYPE := METADATA + "." + CONTENT_TYPE

  predicate IsLogical(key: string) {
    key == "$and" || key == "$nor" || key == "$or"
  }

  // ---- the rename ----

  /** Assigning a key of an object: in place if the key is there, at the end otherwise. */
  function Put(entries: seq<Entry>, key: string, value: Part): seq<Entry> {
    if entries == [] then [Entry(key, value)]
    else if entries[0].key == key then [Entry(key, value)] + entries[1..]
    else [entries[0]] + Put(entries[1..], key, value)
  }

  function RenamedKey(key: string): string {
    if key == CONTENT_TYPE then STORED_TYPE else key
  }

  function Renamed(q: Query): Query
    decreases q
  {
    Query(RenamedEntries([], q.entries))
  }

  /** The rest of the entries, assigned to `mapped` one by one. */
  function RenamedEntries(mapped: seq<Entry>, entries: seq<Entry>): seq<Entry>
    decreases entries
  {
    if entries == [] then mapped
    else RenamedEntries(Put(mapped, RenamedKey(entries[0].key), RenamedPart(entries[0].key, entries[0].part)),
                        entries[1..])
  }

  function RenamedPart(key: string, p: Part): Part
    decreases p
  {
    if IsLogical(key) && p.Parts? then Parts(RenamedAll(p.queries)) else p
  }

  function RenamedAll(qs: seq<Query>): (r: seq<Query>)
    ensures |r| == |qs| && forall i :: 0 <= i < |qs| ==> r[i] == Renamed(qs[i])
    decreases qs
  {
    if qs == [] then [] else [Renamed(qs[0])] + RenamedAll(qs[1..])
  }

  method MapContentTypeKeys(q: Query) returns (r: Query)
    ensures r == Renamed(q)
    decreases q
  {
    var mapped: seq<Entry> := [];
    for i := 0 to |q.entries|
      invariant RenamedEntries(mapped, q.entries[i..]) == RenamedEntries([], q.entries)
    {
      var key, entry := q.entries[i].key, q.entries[i].part;
      assert q.entries[i..][0] == q.entries[i] && q.entries[i..][1..] == q.entries[i + 1..];
      if IsLogical(key) && entry.Parts? {
        var nested := MapAll(entry.queries);
        mapped := Put(mapped, RenamedKey(key), Parts(nested));
      } else {
        mapped := Put(mapped, RenamedKey(key), entry);
      }
    }
    r := Query(mapped);
  }

  method MapAll(qs: seq<Query>) returns (r: seq<Query>)
    ensures r == RenamedAll(qs)
    decreases qs
  {
    r := [];
    for i := 0 to |qs|
      invariant |r| == i && forall k :: 0 <= k < i ==> r[k] == Renamed(qs[k])
    {
      var one := MapContentTypeKeys(qs[i]);
      r := r + [one];
    }
  }

  // ---- files ----

  predicate IsScalar(v: Value) {
    !v.Doc? && !v.Arr?
  }

  /** A stored file: its `metadata`, if any, is a document, and content types are plain values. */
  predicate IsRawFile(file: map<string, Value>) {
    (CONTENT_TYPE in file ==> IsScalar(file[CONTENT_TYPE])) &&
    (METADATA in file ==>
      !file[METADATA].Arr? &&
      (file[METADATA].Doc? && CONTENT_TYPE in file[METADATA].fields ==> IsScalar(file[METADATA].fields[CONTENT_TYPE])))
  }

  /** `normalizeFileInfo`: the content type of the metadata at the root, whatever was there. */
  function Normalized(file: map<string, Value>): map<string, Value> {
    if METADATA in file && file[METADATA].Doc? && CONTENT_TYPE in file[METADATA].fields
    then file[CONTENT_TYPE := file[METADATA].fields[CONTENT_TYPE]]
    else file - {CONTENT_TYPE}
  }

  /** The content type under the root is that of the metadata, and nothing else of the file changes. */
  lemma NormalizedExactly(file: map<string, Value>)
    ensures
      var shown := Normalized(file);
      shown - {"contentType"} == file - {"contentType"} &&
      ("contentType" in shown <==>
        "metadata" in file && file["metadata"].Doc? && "contentType" in file["metadata"].fields) &&
      ("contentType" in shown ==> shown["contentType"] == file["metadata"].fields["contentType"])
  {
  }

  /** Only the key of the content type is renamed, to its path in the stored file. */
  lemma RenamedKeyExactly(key: string)
    ensures RenamedKey("contentType") == "metadata.contentType"
    ensures key != "contentType" ==> RenamedKey(key) == key
  {
  }

  // ---- meaning ----

  ghost predicate PartHolds(key: string, p: Part, doc: Value)
    decreases p
  {
    match p
    case Test(c) => Matches(c, At(doc, Segments(key)))
    case Parts(qs) =>
      if key == "$and" then forall q :: q in qs ==> QueryHolds(q, doc)
      else if key == "$or" then exists q :: q in qs && QueryHolds(q, doc)
      else if key == "$nor" then !exists q :: q in qs && QueryHolds(q, doc)
      else false
    case Direction(_) => false
  }

  ghost predicate QueryHolds(q: Query, doc: Value)
    decreases q
  {
    EntriesHold(q.entries, doc)
  }

  ghost predicate EntriesHold(entries: seq<Entry>, doc: Value)
    decreases entries
  {
    entries != [] ==> PartHolds(entries[0].key, entries[0].part, doc) && EntriesHold(entries[1..], doc)
  }

  predicate Names(entries: seq<Entry>, key: string) {
    exists i :: 0 <= i < |entries| && entries[i].key == key
  }

  /** Every object has each key once, and none names the content type in both ways. */
  ghost predicate Unambiguous(q: Query)
    decreases q
  {
    (forall i, j :: 0 <= i < j < |q.entries| ==> RenamedKey(q.entries[i].key) != RenamedKey(q.entries[j].key)) &&
    forall i :: 0 <= i < |q.entries| ==> UnambiguousPart(q.entries[i].part)
  }

  ghost predicate UnambiguousPart(p: Part)
    decreases p
  {
    p.Parts? ==> forall i :: 0 <= i < |p.queries| ==> Unambiguous(p.queries[i])
  }

  /**
   * What the rename leaves of a query: in every object, of the entries that are renamed to the same
   * key only the last one counts.
   */
  function Kept(q: Query): Query
    decreases q
  {
    Query(KeptEntries(q.entries))
  }

  function KeptEntries(entries: seq<Entry>): seq<Entry>
    decreases entries
  {
    if entries == [] then []
    else
      (if RenamedKey(entries[0].key) in RenamedKeys(entries[1..]) then []
       else [Entry(entries[0].key, KeptPart(entries[0].key, entries[0].part))]) + KeptEntries(entries[1..])
  }

  function KeptPart(key: string, p: Part): Part
    decreases p
  {
    if IsLogical(key) && p.Parts? then Parts(KeptAll(p.queries)) else p
  }

  function KeptAll(qs: seq<Query>): (r: seq<Query>)
    ensures |r| == |qs| && forall i :: 0 <= i < |qs| ==> r[i] == Kept(qs[i])
    decreases qs
  {
    if qs == [] then [] else [Kept(qs[0])] + KeptAll(qs[1..])
  }

  function RenamedKeys(entries: seq<Entry>): set<string> {
    set e | e in entries :: RenamedKey(e.key)
  }

  /** The entries of one object that a later entry replaces. */
  function Lost(entries: seq<Entry>): seq<Entry> {
    if entries == [] then []
    else (if RenamedKey(entries[0].key) in RenamedKeys(entries[1..]) then [entries[0]] else []) + Lost(entries[1..])
  }

  // ---- paths ----

  lemma FirstSegment(key: string)
    ensures Segments(key) == [CONTENT_TYPE] <==> key == CONTENT_TYPE
  {
    if key == CONTENT_TYPE {
      SegmentsSimple(CONTENT_TYPE);
    } else if |Head(key)| < |key| {
      assert |Segments(key)| > 1;
    }
  }

  lemma TwoSegments(name: string, rest: string)
    requires '.' !in name && '.' !in rest
    ensures Segments(name + "." + rest) == [name, rest]
  {
    SegmentsSimple(rest);
    SegmentsCons(name, rest);
    assert [name] + [rest] == [name, rest];
  }

  lemma StoredSegments()
    ensures Segments(STORED_TYPE) == [METADATA, CONTENT_TYPE]
  {
    TwoSegments(METADATA, CONTENT_TYPE);
  }

  lemma Elsewhere(file: map<string, Value>, segs: seq<string>)
    requires segs != [] && segs[0] != CONTENT_TYPE
    ensures At(Doc(file), segs) == At(Doc(Normalized(file)), segs)
  {
  }

  /** A key of the API's view finds in the normalized file what the renamed key finds in the stored one. */
  lemma PathAgrees(key: string, file: map<string, Value>)
    requires IsRawFile(file)
    ensures At(Doc(file), Segments(RenamedKey(key))) == At(Doc(Normalized(file)), Segments(key))
  {
    var segs := Segments(key);
    FirstSegment(key);
    if key == CONTENT_TYPE {
      StoredSegments();
      assert segs == [CONTENT_TYPE];
    } else if segs[0] != CONTENT_TYPE {
      Elsewhere(file, segs);
    }
  }

  // ---- the rename keeps the meaning ----

  lemma {:induction false} PutNew(entries: seq<Entry>, key: string, value: Part)
    requires forall i :: 0 <= i < |entries| ==> entries[i].key != key
    ensures Put(entries, key, value) == entries + [Entry(key, value)]
  {
    if entries != [] {
      PutNew(entries[1..], key, value);
    }
  }

  lemma {:induction false} EntriesConcat(a: seq<Entry>, b: seq<Entry>, doc: Value)
    ensures EntriesHold(a + b, doc) == (EntriesHold(a, doc) && EntriesHold(b, doc))
    decreases a
  {
    if a == [] {
      assert a + b == b;
    } else {
      assert (a + b)[1..] == a[1..] + b;
      EntriesConcat(a[1..], b, doc);
    }
  }

  /** The entries under other keys. */
  function Without(entries: seq<Entry>, keys: set<string>): seq<Entry> {
    if entries == [] then []
    else (if entries[0].key in keys then [] else [entries[0]]) + Without(entries[1..], keys)
  }

  predicate DistinctKeys(entries: seq<Entry>) {
    forall i, j :: 0 <= i < j < |entries| ==> entries[i].key != entries[j].key
  }

  lemma {:induction false} PutKeepsDistinct(entries: seq<Entry>, key: string, value: Part)
    requires DistinctKeys(entries)
    ensures var r := Put(entries, key, value);
      DistinctKeys(r) && forall i :: 0 <= i < |r| ==>
        r[i].key == key || exists j :: 0 <= j < |entries| && r[i] == entries[j]
  {
    if entries != [] && entries[0].key != key {
      PutKeepsDistinct(entries[1..], key, value);
    }
  }

  lemma OneHolds(e: Entry, rest: seq<Entry>, doc: Value)
    ensures EntriesHold([e] + rest, doc) == (PartHolds(e.key, e.part, doc) && EntriesHold(rest, doc))
  {
    assert ([e] + rest)[1..] == rest;
  }

  lemma {:induction false} WithoutOther(entries: seq<Entry>, keys: set<string>, key: string)
    requires forall i :: 0 <= i < |entries| ==> entries[i].key != key
    ensures Without(entries, keys + {key}) == Without(entries, keys)
  {
    if entries != [] {
      WithoutOther(entries[1..], keys, key);
    }
  }

  lemma WithoutCons(e: Entry, rest: seq<Entry>, keys: set<string>, doc: Value)
    ensures EntriesHold(Without([e] + rest, keys), doc) ==
      ((e.key in keys || PartHolds(e.key, e.part, doc)) && EntriesHold(Without(rest, keys), doc))
  {
    assert ([e] + rest)[1..] == rest;
    OneHolds(e, Without(rest, keys), doc);
    assert [] + Without(rest, keys) == Without(rest, keys);
  }

  /** What an assignment of a key changes about the entries that are not replaced later. */
  lemma {:induction false} PutHolds(entries: seq<Entry>, key: string, value: Part, keys: set<string>, doc: Value)
    requires DistinctKeys(entries)
    ensures EntriesHold(Without(Put(entries, key, value), keys), doc) ==
      (EntriesHold(Without(entries, keys + {key}), doc) && (key in keys || PartHolds(key, value, doc)))
  {
    if entries == [] {
      assert Put([], key, value) == [Entry(key, value)] + [];
      WithoutCons(Entry(key, value), [], keys, doc);
    } else if entries[0].key == key {
      WithoutOther(entries[1..], keys, key);
      assert [] + Without(entries[1..], keys) == Without(entries[1..], keys);
      WithoutCons(Entry(key, value), entries[1..], keys, doc);
    } else {
      PutHolds(entries[1..], key, value, keys, doc);
      var e, put := entries[0], Put(entries[1..], key, value);
      assert Put(entries, key, value) == [e] + put;
      WithoutCons(e, put, keys, doc);
      WithoutCons(e, entries[1..], keys + {key}, doc);
      assert entries == [e] + entries[1..];
    }
  }

  /** Every rewritten query holds of a stored file exactly when what is kept of it holds of the normalized form. */
  lemma {:induction false} RenameMeans(q: Query, file: map<string, Value>)
    requires IsRawFile(file)
    ensures QueryHolds(Renamed(q), Doc(file)) == QueryHolds(Kept(q), Doc(Normalized(file)))
    decreases q, 1
  {
    RenameMeansEntries([], q.entries, file);
  }

  lemma {:induction false} RenameMeansEntries(mapped: seq<Entry>, entries: seq<Entry>, file: map<string, Value>)
    requires IsRawFile(file) && DistinctKeys(mapped)
    ensures EntriesHold(RenamedEntries(mapped, entries), Doc(file)) ==
      (EntriesHold(Without(mapped, RenamedKeys(entries)), Doc(file)) &&
       EntriesHold(KeptEntries(entries), Doc(Normalized(file))))
    decreases entries, 0
  {
    if entries == [] {
      NothingDropped(mapped);
    } else {
      var key, part, rest := entries[0].key, entries[0].part, entries[1..];
      var to, value := RenamedKey(key), RenamedPart(key, part);
      PutKeepsDistinct(mapped, to, value);
      RenameMeansEntries(Put(mapped, to, value), rest, file);
      PutHolds(mapped, to, value, RenamedKeys(rest), Doc(file));
      RenameMeansPart(key, part, file);
      FirstKeys(entries);
      OneHolds(Entry(key, KeptPart(key, part)), KeptEntries(rest), Doc(Normalized(file)));
      assert [] + KeptEntries(rest) == KeptEntries(rest);
    }
  }

  lemma {:induction false} NothingDropped(entries: seq<Entry>)
    ensures Without(entries, RenamedKeys([])) == entries
  {
    if entries != [] {
      NothingDropped(entries[1..]);
    }
  }

  lemma FirstKeys(entries: seq<Entry>)
    requires entries != []
    ensures RenamedKeys(entries) == RenamedKeys(entries[1..]) + {RenamedKey(entries[0].key)}
  {
    forall k | k in RenamedKeys(entries) ensures k in RenamedKeys(entries[1..]) + {RenamedKey(entries[0].key)} {
      var e :| e in entries && RenamedKey(e.key) == k;
      assert e == entries[0] || e in entries[1..];
    }
    assert forall e :: e in entries[1..] ==> e in entries;
  }

  lemma {:induction false} RenameMeansPart(key: string, p: Part, file: map<string, Value>)
    requires IsRawFile(file)
    ensures PartHolds(RenamedKey(key), RenamedPart(key, p), Doc(file))
      == PartHolds(key, KeptPart(key, p), Doc(Normalized(file)))
    decreases p, 2
  {
    match p
    case Test(c) => PathAgrees(key, file);
    case Parts(qs) =>
      if IsLogical(key) {
        var rs, ks := RenamedAll(qs), KeptAll(qs);
        forall i | 0 <= i < |qs| ensures QueryHolds(rs[i], Doc(file)) == QueryHolds(ks[i], Doc(Normalized(file))) {
          RenameMeans(qs[i], file);
        }
        SameVotes(rs, ks, Doc(file), Doc(Normalized(file)));
      }
    case Direction(_) =>
  }

  /** Nothing is lost where no object names the content type in both ways. */
  lemma {:induction false} NothingLost(q: Query)
    requires Unambiguous(q)
    ensures Kept(q) == q
    decreases q, 1
  {
    NothingLostHere(q.entries);
  }

  lemma {:induction false} NothingLostHere(entries: seq<Entry>)
    requires forall i, j :: 0 <= i < j < |entries| ==> RenamedKey(entries[i].key) != RenamedKey(entries[j].key)
    requires forall i :: 0 <= i < |entries| ==> UnambiguousPart(entries[i].part)
    ensures KeptEntries(entries) == entries
    decreases entries, 0
  {
    if entries != [] {
      NothingLostHere(entries[1..]);
      NothingLostIn(entries[0].key, entries[0].part);
      assert RenamedKey(entries[0].key) !in RenamedKeys(entries[1..]);
      assert entries == [entries[0]] + entries[1..];
    }
  }

  lemma {:induction false} NothingLostIn(key: string, p: Part)
    requires UnambiguousPart(p)
    ensures KeptPart(key, p) == p
    decreases p, 2
  {
    if p.Parts? {
      forall i | 0 <= i < |p.queries| ensures Kept(p.queries[i]) == p.queries[i] {
        NothingLost(p.queries[i]);
      }
      assert KeptAll(p.queries) == p.queries;
    }
  }

  /**
   * The rewritten query holds of a stored file exactly when the original holds of its normalized
   * form, provided that no object names the content type in both ways.
   */
  lemma RenameKeepsMeaning(q: Query, file: map<string, Value>)
    requires IsRawFile(file) && Unambiguous(q)
    ensures QueryHolds(Renamed(q), Doc(file)) == QueryHolds(q, Doc(Normalized(file)))
  {
    RenameMeans(q, file);
    NothingLost(q);
  }

  lemma {:induction false} KeptAndLost(entries: seq<Entry>, doc: Value)
    requires forall i :: 0 <= i < |entries| ==> UnambiguousPart(entries[i].part)
    ensures EntriesHold(entries, doc) == (EntriesHold(KeptEntries(entries), doc) && EntriesHold(Lost(entries), doc))
  {
    if entries != [] {
      var e, kept, lost := entries[0], KeptEntries(entries[1..]), Lost(entries[1..]);
      KeptAndLost(entries[1..], doc);
      NothingLostIn(e.key, e.part);
      assert [] + kept == kept && [] + lost == lost;
      OneHolds(e, kept, doc);
      OneHolds(e, lost, doc);
    }
  }

  /**
   * An object may name the content type in both ways. The rewritten query then agrees with the
   * original on a file exactly if the lost condition holds wherever the remaining ones do.
   */
  lemma RenameAgreesExactly(q: Query, file: map<string, Value>)
    requires IsRawFile(file) && forall i :: 0 <= i < |q.entries| ==> UnambiguousPart(q.entries[i].part)
    ensures
      var seen := Doc(Normalized(file));
      QueryHolds(Renamed(q), Doc(file)) == QueryHolds(q, seen) <==>
      (QueryHolds(Kept(q), seen) ==> EntriesHold(Lost(q.entries), seen))
  {
    RenameMeans(q, file);
    KeptAndLost(q.entries, Doc(Normalized(file)));
  }

  lemma SameVotes(rs: seq<Query>, qs: seq<Query>, a: Value, b: Value)
    requires |rs| == |qs| && forall i :: 0 <= i < |qs| ==> QueryHolds(rs[i], a) == QueryHolds(qs[i], b)
    ensures (forall r :: r in rs ==> QueryHolds(r, a)) == (forall q :: q in qs ==> QueryHolds(q, b))
    ensures (exists r :: r in rs && QueryHolds(r, a)) == (exists q :: q in qs && QueryHolds(q, b))
  {
    if r :| r in rs && QueryHolds(r, a) {
      var i :| 0 <= i < |rs| && rs[i] == r;
      assert qs[i] in qs && QueryHolds(qs[i], b);
    }
    if q :| q in qs && QueryHolds(q, b) {
      var i :| 0 <= i < |qs| && qs[i] == q;
      assert rs[i] in rs && QueryHolds(rs[i], a);
    }
    if r :| r in rs && !QueryHolds(r, a) {
      var i :| 0 <= i < |rs| && rs[i] == r;
      assert qs[i] in qs && !QueryHolds(qs[i], b);
    }
    if q :| q in qs && !QueryHolds(q, b) {
      var i :| 0 <= i < |qs| && qs[i] == q;
      assert rs[i] in rs && !QueryHolds(rs[i], a);
    }
  }

  lemma RenamePair(first: Entry, second: Entry, key: string)
    requires first.part.Test? && second.part.Test? && RenamedKey(first.key) == key == RenamedKey(second.key)
    ensures RenamedEntries([], [first, second]) == [Entry(key, second.part)]
  {
    assert [first, second][1..] == [second] && [second][1..] == [];
    var one, two := [Entry(key, first.part)], [Entry(key, second.part)];
    assert Put([], key, first.part) == one;
    assert Put(one, key, second.part) == two;
    assert RenamedEntries(one, [second]) == RenamedEntries(two, []) by {
      assert RenamedPart(second.key, second.part) == second.part;
    }
    assert RenamedPart(first.key, first.part) == first.part;
  }

  lemma OneTestHolds(key: string, c: Cond, doc: Value)
    ensures EntriesHold([Entry(key, Test(c))], doc) == Matches(c, At(doc, Segments(key)))
  {
    assert [Entry(key, Test(c))][1..] == [];
  }

  /** Naming the content type in both ways in one object loses the condition that comes first. */
  lemma BothNamesLoseTheFirst(a: Cond, b: Cond, file: map<string, Value>)
    requires IsRawFile(file)
    ensures QueryHolds(Renamed(Query([Entry(CONTENT_TYPE, Test(a)), Entry(STORED_TYPE, Test(b))])), Doc(file))
      == Matches(b, At(Doc(Normalized(file)), Segments(CONTENT_TYPE)))
  {
    RenamePair(Entry(CONTENT_TYPE, Test(a)), Entry(STORED_TYPE, Test(b)), STORED_TYPE);
    OneTestHolds(STORED_TYPE, b, Doc(file));
    PathAgrees(CONTENT_TYPE, file);
  }

  // ---- reading files ----

  ghost function Select(q: Query, files: seq<map<string, Value>>): seq<map<string, Value>> {
    if files == [] then []
    else (if QueryHolds(q, Doc(files[0])) then [files[0]] else []) + Select(q, files[1..])
  }

  function NormalizedAll(files: seq<map<string, Value>>): seq<map<string, Value>> {
    if files == [] then [] else [Normalized(files[0])] + NormalizedAll(files[1..])
  }

  /** Searching the stored files and normalizing the hits is searching the normalized files for what is kept. */
  lemma {:induction false} FindFilesAgrees(q: Query, files: seq<map<string, Value>>)
    requires forall i :: 0 <= i < |files| ==> IsRawFile(files[i])
    ensures NormalizedAll(Select(Renamed(q), files)) == Select(Kept(q), NormalizedAll(files))
    ensures Unambiguous(q) ==> NormalizedAll(Select(Renamed(q), files)) == Select(q, NormalizedAll(files))
  {
    if Unambiguous(q) {
      NothingLost(q);
    }
    if files != [] {
      FindFilesAgrees(q, files[1..]);
      RenameMeans(q, files[0]);
      var hits := Select(Renamed(q), files[1..]);
      if QueryHolds(Kept(q), Doc(Normalized(files[0]))) {
        assert ([files[0]] + hits)[1..] == hits;
      } else {
        assert [] + hits == hits;
      }
      assert NormalizedAll(files)[1..] == NormalizedAll(files[1..]);
    }
  }

  /** What a file offers under each sort key, with the direction, most significant first. */
  ghost function SortKeys(sort: seq<Entry>, doc: Value): (r: seq<(set<Value>, Part)>)
    ensures |r| == |sort| && forall i :: 0 <= i < |sort| ==> r[i] == (At(doc, Segments(sort[i].key)), sort[i].part)
  {
    seq(|sort|, i requires 0 <= i < |sort| => (At(doc, Segments(sort[i].key)), sort[i].part))
  }

  /** Every order decided by the sort keys orders the stored files like the normalized ones. */
  lemma SortAgrees(sort: Query, file: map<string, Value>)
    requires IsRawFile(file) && Unambiguous(sort) &&
      forall i :: 0 <= i < |sort.entries| ==> sort.entries[i].part.Direction?
    ensures SortKeys(Renamed(sort).entries, Doc(file)) == SortKeys(sort.entries, Doc(Normalized(file)))
  {
    RenamedAppends([], sort.entries);
    assert [] + RenamedEach(sort.entries) == RenamedEach(sort.entries);
    EachSorts(sort.entries, file);
  }

  // ---- sort specifications that name the content type in both ways ----

  function RenamedEach(entries: seq<Entry>): seq<Entry> {
    seq(|entries|, i requires 0 <= i < |entries| =>
      Entry(RenamedKey(entries[i].key), RenamedPart(entries[i].key, entries[i].part)))
  }

  predicate Fresh(mapped: seq<Entry>, entries: seq<Entry>) {
    (forall i, j :: 0 <= i < j < |entries| ==> RenamedKey(entries[i].key) != RenamedKey(entries[j].key)) &&
    forall i, j :: 0 <= i < |mapped| && 0 <= j < |entries| ==> mapped[i].key != RenamedKey(entries[j].key)
  }

  lemma FreshNext(mapped: seq<Entry>, entries: seq<Entry>)
    requires Fresh(mapped, entries) && entries != []
    ensures Fresh(mapped + [RenamedEach(entries)[0]], entries[1..])
  {
    var next, rest := mapped + [RenamedEach(entries)[0]], entries[1..];
    forall i, j | 0 <= i < |next| && 0 <= j < |rest| ensures next[i].key != RenamedKey(rest[j].key) {
      assert rest[j] == entries[j + 1];
    }
  }

  lemma {:induction false} RenamedAppends(mapped: seq<Entry>, entries: seq<Entry>)
    requires Fresh(mapped, entries)
    ensures RenamedEntries(mapped, entries) == mapped + RenamedEach(entries)
    decreases |entries|
  {
    if entries == [] {
      assert mapped + RenamedEach([]) == mapped;
    } else {
      var e, rest := RenamedEach(entries)[0], RenamedEach(entries[1..]);
      PutNew(mapped, e.key, e.part);
      FreshNext(mapped, entries);
      RenamedAppends(mapped + [e], entries[1..]);
      assert RenamedEach(entries) == [e] + rest;
      assert (mapped + [e]) + rest == mapped + ([e] + rest);
    }
  }

  lemma {:induction false} RenamedInTurn(mapped: seq<Entry>, a: seq<Entry>, b: seq<Entry>)
    ensures RenamedEntries(mapped, a + b) == RenamedEntries(RenamedEntries(mapped, a), b)
    decreases |a|
  {
    if a == [] {
      assert a + b == b;
    } else {
      assert (a + b)[1..] == a[1..] + b;
      RenamedInTurn(Put(mapped, RenamedKey(a[0].key), RenamedPart(a[0].key, a[0].part)), a[1..], b);
    }
  }

  lemma {:induction false} PutReplaces(a: seq<Entry>, e: Entry, b: seq<Entry>, value: Part)
    requires forall i :: 0 <= i < |a| ==> a[i].key != e.key
    ensures Put(a + [e] + b, e.key, value) == a + [Entry(e.key, value)] + b
  {
    if a == [] {
      assert a + [e] + b == [e] + b && ([e] + b)[1..] == b;
      assert a + [Entry(e.key, value)] + b == [Entry(e.key, value)] + b;
    } else {
      PutReplaces(a[1..], e, b, value);
      assert (a + [e] + b)[1..] == a[1..] + [e] + b;
      assert [a[0]] + (a[1..] + [Entry(e.key, value)] + b) == a + [Entry(e.key, value)] + b;
    }
  }

  /** Entries with different renamed keys offer, renamed, what they offer on the normalized file. */
  lemma EachSorts(entries: seq<Entry>, file: map<string, Value>)
    requires IsRawFile(file) && AreDirections(entries)
    ensures SortKeys(RenamedEach(entries), Doc(file)) == SortKeys(entries, Doc(Normalized(file)))
  {
    var renamed := RenamedEach(entries);
    forall i | 0 <= i < |entries|
      ensures At(Doc(file), Segments(renamed[i].key)) == At(Doc(Normalized(file)), Segments(entries[i].key))
    {
      PathAgrees(entries[i].key, file);
    }
  }

  /**
   * A sort specification that names the content type in both ways, at first with one direction and
   * later with another, sorts by the content type at the first place, with the second direction.
   */
  lemma BothNamesSort(a: seq<Entry>, first: Entry, b: seq<Entry>, second: Entry, c: seq<Entry>,
                      file: map<string, Value>)
    requires IsRawFile(file) && RenamedKey(first.key) == STORED_TYPE == RenamedKey(second.key)
    requires Fresh([], a + [first] + b + c)
    requires second.part.Direction? && AreDirections(a + [first] + b + c)
    ensures
      SortKeys(Renamed(Query(a + [first] + b + [second] + c)).entries, Doc(file)) ==
      SortKeys(a + [Entry(first.key, second.part)] + b + c, Doc(Normalized(file)))
  {
    var place := Entry(first.key, second.part);
    DirectionsStay(a, first, place, b, c);
    BothNamesRename(a, first, b, second, c);
    EachSorts(a + [place] + b + c, file);
  }

  predicate AreDirections(entries: seq<Entry>) {
    forall i :: 0 <= i < |entries| ==> entries[i].part.Direction?
  }

  lemma DirectionsStay(a: seq<Entry>, first: Entry, place: Entry, b: seq<Entry>, c: seq<Entry>)
    requires place.part.Direction? && AreDirections(a + [first] + b + c)
    ensures first.part.Direction? && AreDirections(a + [place] + b + c)
  {
    var before, after := a + [first] + b + c, a + [place] + b + c;
    assert before[|a|] == first;
    forall i | 0 <= i < |after| ensures after[i].part.Direction? {
      assert after[i] == if i == |a| then place else before[i];
    }
  }

  lemma FreshParts(a: seq<Entry>, b: seq<Entry>)
    requires Fresh([], a + b)
    ensures Fresh([], a) && Fresh(RenamedEach(a), b)
  {
    var all := a + b;
    forall i, j | 0 <= i < j < |a| ensures RenamedKey(a[i].key) != RenamedKey(a[j].key) {
      assert all[i] == a[i] && all[j] == a[j];
    }
    forall i, j | 0 <= i < j < |b| ensures RenamedKey(b[i].key) != RenamedKey(b[j].key) {
      assert all[|a| + i] == b[i] && all[|a| + j] == b[j];
    }
    forall i, j | 0 <= i < |a| && 0 <= j < |b| ensures RenamedEach(a)[i].key != RenamedKey(b[j].key) {
      assert all[i] == a[i] && all[|a| + j] == b[j];
    }
  }

  lemma EachConcat(a: seq<Entry>, b: seq<Entry>)
    ensures RenamedEach(a + b) == RenamedEach(a) + RenamedEach(b)
  {
  }

  lemma EachOfThree(a: seq<Entry>, e: Entry, b: seq<Entry>)
    requires e.part.Direction?
    ensures RenamedEach(a + [e] + b) == RenamedEach(a) + [Entry(RenamedKey(e.key), e.part)] + RenamedEach(b)
  {
    EachConcat(a + [e], b);
    EachConcat(a, [e]);
    assert RenamedEach([e]) == [Entry(RenamedKey(e.key), e.part)];
  }

  lemma SecondReplaces(a: seq<Entry>, first: Entry, b: seq<Entry>, second: Entry)
    requires RenamedKey(first.key) == STORED_TYPE == RenamedKey(second.key)
    requires first.part.Direction? && second.part.Direction? && Fresh([], a + [first] + b)
    ensures RenamedEntries([], a + [first] + b + [second]) == RenamedEach(a + [Entry(first.key, second.part)] + b)
  {
    var start, x, e, y := a + [first] + b, RenamedEach(a), Entry(STORED_TYPE, first.part), RenamedEach(b);
    RenamedAppends([], start);
    assert [] + RenamedEach(start) == RenamedEach(start);
    EachOfThree(a, first, b);
    EachOfThree(a, Entry(first.key, second.part), b);
    forall i | 0 <= i < |x| ensures x[i].key != e.key {
      assert start[i] == a[i] && start[|a|] == first;
    }
    PutReplaces(x, e, y, second.part);
    RenamedInTurn([], start, [second]);
    LastRenamed(RenamedEach(start), second);
  }

  lemma LastRenamed(mapped: seq<Entry>, e: Entry)
    requires e.part.Direction?
    ensures RenamedEntries(mapped, [e]) == Put(mapped, RenamedKey(e.key), e.part)
  {
    assert [e][1..] == [];
    assert RenamedEntries(Put(mapped, RenamedKey(e.key), e.part), []) == Put(mapped, RenamedKey(e.key), e.part);
  }

  lemma BothNamesRename(a: seq<Entry>, first: Entry, b: seq<Entry>, second: Entry, c: seq<Entry>)
    requires RenamedKey(first.key) == STORED_TYPE == RenamedKey(second.key)
    requires first.part.Direction? && second.part.Direction? && Fresh([], a + [first] + b + c)
    ensures RenamedEntries([], a + [first] + b + [second] + c) ==
      RenamedEach(a + [Entry(first.key, second.part)] + b + c)
  {
    var start, replaced := a + [first] + b, a + [Entry(first.key, second.part)] + b;
    var mid := RenamedEach(replaced);
    FreshParts(start, c);
    SecondReplaces(a, first, b, second);
    RenamedInTurn([], start + [second], c);
    forall i, j | 0 <= i < |mid| && 0 <= j < |c| ensures mid[i].key != RenamedKey(c[j].key) {
      assert replaced[i].key == start[i].key;
      assert RenamedEach(start)[i].key == mid[i].key;
    }
    RenamedAppends(mid, c);
    EachConcat(replaced, c);
  }
}
