/** `EmbeddingsAndLabelsDataset` (datasets/dataset.py): a dataset over stored
    embedding files, read item by item or one label class at a time.

    What lies outside the model enters as values: the directory listing of
    `filepath` is the sequence `listing`, `get_embedding` is the function
    `load` from a path to an opaque embedding, and `np.random.choice` is an
    unconstrained choice from the bearer list. */
module Dataset {
  import opened Wrappers
  import opened PyList
  import opened PyStr
  import opened EcNumbers

  type Id = string

  /** What `__init__` raises. */
  datatype InitError =
    | MissingEmbeddings(have: nat, missing: set<Id>)  // the AssertionError: how many ids were found, and `set(ids) - id_embs`
    | UnlabelledId(key: Id)                            // KeyError from `id_to_ec[id]` in class mode

  /** What `__getitem__` raises. */
  datatype ItemError =
    | IndexOutOfRange            // IndexError from the list subscript
    | UnlabelledKey(key: string) // KeyError from `id_to_ec[...]`

  /** One sample: the loaded embedding and the expanded label list. */
  datatype Sample<E> = Sample(embedding: E, labels: seq<Label>)

  const PtSuffix: string := ".pt"

  // -----------------------------------------------------------------------
  // Id resolution (__init__, explicit id list)

  /** The ids the listing stores: every file name without its last three
      characters (`f[:-3]`), whatever its extension. */
  function StoredIds(listing: seq<string>): (r: set<Id>)
    ensures forall id :: id + PtSuffix in listing ==> id in r
  {
    PtFilesStored(listing);
    set f | f in listing :: DropLast(f, 3)
  }

  /** Every "<id>.pt" file of the listing stores `id`. */
  lemma {:induction false} PtFilesStored(listing: seq<string>)
    ensures forall id :: id + PtSuffix in listing ==> id in (set f | f in listing :: DropLast(f, 3))
  {
    forall id | id + PtSuffix in listing
      ensures id in (set f | f in listing :: DropLast(f, 3))
    {
      DropLastAppended(id, PtSuffix);
    }
  }

  /** `id_embs`: the requested ids that are stored. */
  function FoundIds(listing: seq<string>, ids: seq<Id>): (r: set<Id>)
    ensures r <= Elems(ids) && |r| <= |ids|
  {
    DistinctCount(ids);
    SubsetSize(StoredIds(listing) * Elems(ids), Elems(ids));
    StoredIds(listing) * Elems(ids)
  }

  /** The assertion on `len(id_embs) == len(ids)`. It holds exactly when
      every requested id is stored AND no id is requested twice; when it
      fails, the report names the requested ids that are not stored. */
  function ResolveIds(listing: seq<string>, ids: seq<Id>): (r: Result<set<Id>, InitError>)
    ensures r.Success? <==> Elems(ids) <= StoredIds(listing) && NoDuplicates(ids)
    ensures r.Success? ==> r.value == Elems(ids)
    ensures r.Failure? ==> r.error == MissingEmbeddings(|FoundIds(listing, ids)|, Elems(ids) - StoredIds(listing))
  {
    var found := FoundIds(listing, ids);
    DistinctCount(ids);
    SubsetSize(found, Elems(ids));
    if |found| == |ids| then
      Success(found)
    else
      assert Elems(ids) <= StoredIds(listing) && NoDuplicates(ids) ==> found == Elems(ids);
      assert Elems(ids) - found == Elems(ids) - StoredIds(listing);
      Failure(MissingEmbeddings(|found|, Elems(ids) - found))
  }

  /** A request that lists one id twice fails although every id is stored,
      and the report then names no missing id at all. */
  lemma {:induction false} DuplicateRequestFails(listing: seq<string>, ids: seq<Id>, i: nat, j: nat)
    requires i < j < |ids| && ids[i] == ids[j]
    requires Elems(ids) <= StoredIds(listing)
    ensures ResolveIds(listing, ids) == Failure(MissingEmbeddings(|Elems(ids)|, {}))
  {
    assert !NoDuplicates(ids);
    assert FoundIds(listing, ids) == Elems(ids);
    assert Elems(ids) - StoredIds(listing) == {};
  }

  /** With distinct requested ids of which exactly one is not stored, the
      report names exactly that id. */
  lemma {:induction false} OneMissingIdReported(listing: seq<string>, ids: seq<Id>, x: Id)
    requires NoDuplicates(ids) && x in ids && x !in StoredIds(listing)
    requires forall y :: y in ids && y != x ==> y in StoredIds(listing)
    ensures ResolveIds(listing, ids) == Failure(MissingEmbeddings(|ids| - 1, {x}))
  {
    var found := FoundIds(listing, ids);
    assert x in Elems(ids) && x !in StoredIds(listing);
    assert Elems(ids) - StoredIds(listing) == {x};
    assert found == Elems(ids) - {x};
    DistinctCount(ids);
    assert |found| == |ids| - 1;
    var r := ResolveIds(listing, ids);
    assert r.Failure?;
    assert r.error == MissingEmbeddings(|found|, {x});
  }

  /** The names `[id_emb + ".pt" for id_emb in id_embs]` hold. */
  ghost function Suffixed(ids: set<Id>): set<string>
  {
    set id | id in ids :: id + PtSuffix
  }

  /** Appending ".pt" is injective, so naming files loses no id. */
  lemma {:induction false} SuffixedCount(ids: set<Id>)
    ensures |Suffixed(ids)| == |ids|
    decreases |ids|
  {
    if ids != {} {
      var x :| x in ids;
      var rest := ids - {x};
      SuffixedCount(rest);
      assert Suffixed(ids) == Suffixed(rest) + {x + PtSuffix};
      if x + PtSuffix in Suffixed(rest) {
        var y :| y in rest && y + PtSuffix == x + PtSuffix;
        DropLastAppended(x, PtSuffix);
        DropLastAppended(y, PtSuffix);
      }
    }
  }

  /** `names` holds one file name for each id of `found` already taken,
      i.e. not in `todo`, and nothing else. */
  ghost predicate NamedSoFar(found: set<Id>, todo: set<Id>, names: seq<string>)
  {
    && todo <= found
    && NoDuplicates(names)
    && Elems(names) == Suffixed(found - todo)
    && |names| == |found - todo|
  }

  /** Naming one more id keeps the names distinct and complete. */
  lemma {:induction false} NameStep(found: set<Id>, todo: set<Id>, names: seq<string>, id: Id)
    requires NamedSoFar(found, todo, names) && id in todo
    ensures NamedSoFar(found, todo - {id}, names + [id + PtSuffix])
  {
    var name := id + PtSuffix;
    assert name !in names by {
      if name in names {
        assert name in Suffixed(found - todo);
        var other :| other in found - todo && other + PtSuffix == name;
        DropLastAppended(id, PtSuffix);
        DropLastAppended(other, PtSuffix);
      }
    }
    assert found - (todo - {id}) == (found - todo) + {id};
    assert Suffixed((found - todo) + {id}) == Suffixed(found - todo) + {name};
    assert Elems(names + [name]) == Elems(names) + {name};
  }

  /** Builds the file-name list from the set of stored requested ids; set
      iteration order is unspecified, so each step takes any remaining id. */
  method NameFiles(found: set<Id>) returns (names: seq<string>)
    ensures NoDuplicates(names)
    ensures Elems(names) == Suffixed(found)
    ensures |names| == |found|
  {
    names := [];
    var todo := found;
    while todo != {}
      invariant NamedSoFar(found, todo, names)
      decreases todo
    {
      var id :| id in todo;
      NameStep(found, todo, names, id);
      names := names + [id + PtSuffix];
      todo := todo - {id};
    }
    assert found - todo == found;
  }

  // -----------------------------------------------------------------------
  // The label key of a stored file

  /** The key `__getitem__` looks labels up under in per-item mode:
      `filename.strip(".pt")`, which strips the CHARACTERS '.', 'p' and 't'
      from both ends. */
  function LabelKey(filename: string): (r: string)
    ensures |r| <= |filename|
    ensures r == [] || (r[0] !in PtSuffix && r[|r| - 1] !in PtSuffix)
  {
    Strip(filename, PtSuffix)
  }

  /** Construction recovers every id from its file name by `[:-3]`. */
  lemma {:induction false} ConstructionKeyOfStoredId(id: Id)
    ensures id in StoredIds([id + PtSuffix])
  {
    DropLastAppended(id, PtSuffix);
  }

  /** `strip(".pt")` recovers an id from its file name exactly when the id is
      empty or neither starts nor ends with '.', 'p' or 't'. */
  lemma {:induction false} LabelKeyOfStoredId(id: Id)
    ensures LabelKey(id + PtSuffix) == id <==> id == [] || (id[0] !in PtSuffix && id[|id| - 1] !in PtSuffix)
  {
    var s := id + PtSuffix;
    assert s[..|id|] == id;
    if id == [] || (id[0] !in PtSuffix && id[|id| - 1] !in PtSuffix) {
      assert IsStripWindow(s, PtSuffix, 0, |id|) by {
        forall k | |id| <= k < |s| ensures s[k] in PtSuffix {
          assert s[k] == PtSuffix[k - |id|];
        }
      }
      StripUnique(s, PtSuffix, 0, |id|);
    } else {
      // the window of a non-empty result ends outside ".pt", so within the id
      var i, j := StripIsWindow(s, PtSuffix);
    }
  }

  /** The two keys disagree: "rpt" is found at construction under `[:-3]`
      but looked up as "r" by `__getitem__`. */
  lemma {:induction false} KeysDisagreeExample()
    ensures DropLast("rpt" + PtSuffix, 3) == "rpt"
    ensures LabelKey("rpt" + PtSuffix) == "r"
  {
    DropLastAppended("rpt", PtSuffix);
    var s := "rpt" + PtSuffix;
    assert IsStripWindow(s, PtSuffix, 0, 1);
    StripUnique(s, PtSuffix, 0, 1);
    assert s[0..1] == "r";
  }

  // -----------------------------------------------------------------------
  // The class index (__init__ with train_on_classes)

  /** `ec_to_id[ec]` of a defaultdict: the empty list for an absent key. */
  function Bearers(ecToId: map<Label, seq<Id>>, ec: Label): seq<Id>
  {
    if ec in ecToId then ecToId[ec] else []
  }

  /** How often `id` must appear under `ec` once every id of `source` is
      processed: once per occurrence of `ec` among its labels. */
  function Expected(source: set<Id>, idToEc: map<Id, seq<Label>>, id: Id, ec: Label): nat
  {
    if id in source && id in idToEc then Count(idToEc[id], ec) else 0
  }

  /** The ids whose labels class mode indexes: every id of `id_to_ec` when no
      id list is given, whether stored or not; else the stored requested ids. */
  function ClassSource(listing: seq<string>, ids: Option<seq<Id>>, idToEc: map<Id, seq<Label>>): (r: set<Id>)
    ensures ids.None? ==> r == idToEc.Keys
    ensures ids.Some? ==> r <= StoredIds(listing) && r <= Elems(ids.value)
  {
    match ids
    case None => idToEc.Keys
    case Some(l) => FoundIds(listing, l)
  }

  /** The distinct raw labels carried by the ids of `source`. */
  ghost function RawLabels(source: set<Id>, idToEc: map<Id, seq<Label>>): set<Label>
  {
    set id, ec | id in source && id in idToEc && ec in idToEc[id] :: ec
  }

  /** `ec_to_id` and `ec_nums` index `source`: each key has a non-empty bearer
      list, each id appears under each label as often as it carries it, and
      `ec_nums` lists every key exactly once. */
  ghost predicate IsClassIndex(ecToId: map<Label, seq<Id>>, ecNums: seq<Label>, source: set<Id>, idToEc: map<Id, seq<Label>>)
  {
    && KeysTracked(ecToId, ecNums)
    && (forall ec, id :: Count(Bearers(ecToId, ec), id) == Expected(source, idToEc, id, ec))
  }

  /** Every key of `ecToId` has a non-empty bearer list, and `ecNums` lists
      the keys, each once. */
  ghost predicate KeysTracked(ecToId: map<Label, seq<Id>>, ecNums: seq<Label>)
  {
    && (forall ec :: ec in ecToId ==> ecToId[ec] != [])
    && NoDuplicates(ecNums)
    && Elems(ecNums) == ecToId.Keys
  }

  /** Filing an id under a label keeps the keys tracked, a new label joining
      the end of the key order. */
  lemma {:induction false} KeysTrackedStep(ecToId: map<Label, seq<Id>>, ecNums: seq<Label>, id: Id, ec: Label)
    requires KeysTracked(ecToId, ecNums)
    ensures KeysTracked(ecToId[ec := Bearers(ecToId, ec) + [id]], if ec in ecToId then ecNums else ecNums + [ec])
  {
    if ec !in ecToId {
      assert Elems(ecNums + [ec]) == Elems(ecNums) + {ec};
    }
  }

  /** A bearer of a label is an indexed id that carries the label. */
  lemma {:induction false} BearerCarriesLabel(ecToId: map<Label, seq<Id>>, ecNums: seq<Label>, source: set<Id>, idToEc: map<Id, seq<Label>>, ec: Label, id: Id)
    requires IsClassIndex(ecToId, ecNums, source, idToEc)
    requires id in Bearers(ecToId, ec)
    ensures id in source && id in idToEc && ec in idToEc[id]
  {
    assert Count(Bearers(ecToId, ec), id) > 0;
    assert Expected(source, idToEc, id, ec) > 0;
  }

  /** An indexed id is a bearer of each of its labels. */
  lemma {:induction false} LabelledIdIsBearer(ecToId: map<Label, seq<Id>>, ecNums: seq<Label>, source: set<Id>, idToEc: map<Id, seq<Label>>, ec: Label, id: Id)
    requires IsClassIndex(ecToId, ecNums, source, idToEc)
    requires id in source && id in idToEc && ec in idToEc[id]
    ensures ec in ecToId && id in ecToId[ec]
  {
    assert Expected(source, idToEc, id, ec) > 0;
    assert Count(Bearers(ecToId, ec), id) > 0;
  }

  /** The keys of the index are exactly the distinct raw labels, and
      `ec_nums` has one entry per key. */
  lemma {:induction false} ClassIndexKeys(ecToId: map<Label, seq<Id>>, ecNums: seq<Label>, source: set<Id>, idToEc: map<Id, seq<Label>>)
    requires IsClassIndex(ecToId, ecNums, source, idToEc)
    ensures ecToId.Keys == RawLabels(source, idToEc)
    ensures |ecNums| == |RawLabels(source, idToEc)|
  {
    forall ec | ec in ecToId ensures ec in RawLabels(source, idToEc) {
      var id := ecToId[ec][0];
      BearerCarriesLabel(ecToId, ecNums, source, idToEc, ec, id);
    }
    forall ec | ec in RawLabels(source, idToEc) ensures ec in ecToId {
      var id :| id in source && id in idToEc && ec in idToEc[id];
      LabelledIdIsBearer(ecToId, ecNums, source, idToEc, ec, id);
    }
    DistinctCount(ecNums);
  }

  /** The raw labels of the three-id example below, and how often each id
      must be filed under each of them. */
  lemma {:induction false} ExampleRawLabels(source: set<Id>, idToEc: map<Id, seq<Label>>, x: Id, y: Id, z: Id, a: Label, b: Label)
    requires x != y && y != z && x != z && a != b
    requires source == {x, y, z} && idToEc == map[x := [a], y := [a], z := [b]]
    ensures RawLabels(source, idToEc) == {a, b}
    ensures forall id :: Expected(source, idToEc, id, a) == multiset{x, y}[id]
    ensures forall id :: Expected(source, idToEc, id, b) == multiset{z}[id]
  {
    forall id ensures Expected(source, idToEc, id, a) == multiset{x, y}[id]
                   && Expected(source, idToEc, id, b) == multiset{z}[id]
    {
      if id == x || id == y {
        assert idToEc[id] == [a];
        assert multiset(idToEc[id]) == multiset{a};
      } else if id == z {
        assert idToEc[id] == [b];
        assert multiset(idToEc[id]) == multiset{b};
      }
    }
    assert x in idToEc && a in idToEc[x];
    assert z in idToEc && b in idToEc[z];
  }

  /** The bearers of a label, counted from the index invariant. */
  lemma {:induction false} ExampleBearers(ecToId: map<Label, seq<Id>>, ecNums: seq<Label>, source: set<Id>, idToEc: map<Id, seq<Label>>, ec: Label, m: multiset<Id>)
    requires IsClassIndex(ecToId, ecNums, source, idToEc)
    requires ec in ecToId
    requires forall id :: Expected(source, idToEc, id, ec) == m[id]
    ensures multiset(ecToId[ec]) == m
  {
    forall id ensures multiset(ecToId[ec])[id] == m[id] {
      assert Count(Bearers(ecToId, ec), id) == Expected(source, idToEc, id, ec);
    }
  }

  /** Three ids, two of which share a label: the index has two classes, the
      shared one borne by both ids (in either order), the other by its one
      id. Drawing a class uniformly therefore reaches the lone id as often as
      the other two together. */
  lemma {:induction false} ClassIndexExample(ecToId: map<Label, seq<Id>>, ecNums: seq<Label>, x: Id, y: Id, z: Id, a: Label, b: Label)
    requires x != y && y != z && x != z && a != b
    requires IsClassIndex(ecToId, ecNums, {x, y, z}, map[x := [a], y := [a], z := [b]])
    ensures |ecNums| == 2 && ecToId.Keys == {a, b}
    ensures multiset(ecToId[a]) == multiset{x, y}
    ensures ecToId[b] == [z]
  {
    var source, idToEc := {x, y, z}, map[x := [a], y := [a], z := [b]];
    ExampleRawLabels(source, idToEc, x, y, z, a, b);
    ClassIndexKeys(ecToId, ecNums, source, idToEc);
    ExampleBearers(ecToId, ecNums, source, idToEc, a, multiset{x, y});
    ExampleBearers(ecToId, ecNums, source, idToEc, b, multiset{z});
    assert |ecToId[b]| == |multiset(ecToId[b])| == 1;
    assert ecToId[b][0] in multiset(ecToId[b]);
  }

  /** `ecToId` is `base` with `id` filed once more under each label of
      `added`. */
  ghost predicate FiledAfter(ecToId: map<Label, seq<Id>>, base: map<Label, seq<Id>>, id: Id, added: seq<Label>)
  {
    forall ec, x :: Count(Bearers(ecToId, ec), x) == Count(Bearers(base, ec), x) + (if x == id then Count(added, ec) else 0)
  }

  /** Nothing filed yet. */
  lemma {:induction false} FiledNothing(ecToId: map<Label, seq<Id>>, id: Id)
    ensures FiledAfter(ecToId, ecToId, id, [])
  {
    var none: seq<Label> := [];
    assert forall ec :: Count(none, ec) == 0;
  }

  /** Appending `y` adds one occurrence of `y` and none of anything else. */
  lemma {:induction false} CountSnoc<T>(xs: seq<T>, y: T, x: T)
    ensures Count(xs + [y], x) == Count(xs, x) + (if x == y then 1 else 0)
  {
    assert multiset(xs + [y]) == multiset(xs) + multiset{y};
  }

  /** `ec_to_id[ec].append(id)` files `id` once more under `ec` and changes
      nothing else. */
  lemma {:induction false} AppendFiles(ecToId: map<Label, seq<Id>>, base: map<Label, seq<Id>>, id: Id, added: seq<Label>, ec: Label)
    requires FiledAfter(ecToId, base, id, added)
    ensures FiledAfter(ecToId[ec := Bearers(ecToId, ec) + [id]], base, id, added + [ec])
  {
    var m := ecToId[ec := Bearers(ecToId, ec) + [id]];
    forall e, x
      ensures Count(Bearers(m, e), x) == Count(Bearers(base, e), x) + (if x == id then Count(added + [ec], e) else 0)
    {
      CountSnoc(added, ec, e);
      if e == ec {
        CountSnoc(Bearers(ecToId, ec), id, x);
      } else {
        assert Bearers(m, e) == Bearers(ecToId, e);
      }
    }
  }

  /** Part way through filing `id`: the labels `added` are filed, and the
      keys are tracked. */
  ghost predicate Filing(ecToId: map<Label, seq<Id>>, ecNums: seq<Label>, base: map<Label, seq<Id>>, id: Id, added: seq<Label>)
  {
    KeysTracked(ecToId, ecNums) && FiledAfter(ecToId, base, id, added)
  }

  /** One `ec_to_id[ec].append(id)` step of the inner loop. */
  lemma {:induction false} FileStep(ecToId: map<Label, seq<Id>>, ecNums: seq<Label>, base: map<Label, seq<Id>>, id: Id, added: seq<Label>, ec: Label)
    requires Filing(ecToId, ecNums, base, id, added)
    ensures Filing(ecToId[ec := Bearers(ecToId, ec) + [id]], if ec in ecToId then ecNums else ecNums + [ec], base, id, added + [ec])
  {
    KeysTrackedStep(ecToId, ecNums, id, ec);
    AppendFiles(ecToId, base, id, added, ec);
  }

  /** The state after filing `id` under each label of `ecs` in turn: the
      bearer list of each label grows by `id`, and a label met for the
      first time joins the end of the key order. */
  function FileAll(ecToId: map<Label, seq<Id>>, ecNums: seq<Label>, id: Id, ecs: seq<Label>): (map<Label, seq<Id>>, seq<Label>)
  {
    if ecs == [] then (ecToId, ecNums)
    else
      var (m, keys) := FileAll(ecToId, ecNums, id, ecs[..|ecs| - 1]);
      var ec := ecs[|ecs| - 1];
      (m[ec := Bearers(m, ec) + [id]], if ec in m then keys else keys + [ec])
  }

  /** Filing keeps the keys tracked and files `id` once per label occurrence. */
  lemma {:induction false} FileAllFiles(ecToId: map<Label, seq<Id>>, ecNums: seq<Label>, id: Id, ecs: seq<Label>)
    requires KeysTracked(ecToId, ecNums)
    ensures Filing(FileAll(ecToId, ecNums, id, ecs).0, FileAll(ecToId, ecNums, id, ecs).1, ecToId, id, ecs)
  {
    if ecs == [] {
      FiledNothing(ecToId, id);
    } else {
      var init := ecs[..|ecs| - 1];
      FileAllFiles(ecToId, ecNums, id, init);
      var (m, keys) := FileAll(ecToId, ecNums, id, init);
      FileStep(m, keys, ecToId, id, init, ecs[|ecs| - 1]);
      assert init + [ecs[|ecs| - 1]] == ecs;
    }
  }

  /** The inner loop of lines 46-47 / 51-52: files `id` under each of its
      labels `ecs`, in order. */
  method AddBearer(ecToId: map<Label, seq<Id>>, ecNums: seq<Label>, id: Id, ecs: seq<Label>)
    returns (ecToId': map<Label, seq<Id>>, ecNums': seq<Label>)
    requires KeysTracked(ecToId, ecNums)
    ensures (ecToId', ecNums') == FileAll(ecToId, ecNums, id, ecs)
    ensures KeysTracked(ecToId', ecNums')
    ensures FiledAfter(ecToId', ecToId, id, ecs)
  {
    ecToId', ecNums' := ecToId, ecNums;
    for j := 0 to |ecs|
      invariant (ecToId', ecNums') == FileAll(ecToId, ecNums, id, ecs[..j])
    {
      var ec := ecs[j];
      assert ecs[..j + 1][..j] == ecs[..j];
      if ec !in ecToId' {
        ecNums' := ecNums' + [ec];
      }
      ecToId' := ecToId'[ec := Bearers(ecToId', ec) + [id]];
    }
    assert ecs[..|ecs|] == ecs;
    FileAllFiles(ecToId, ecNums, id, ecs);
  }

  /** The nested loops of lines 43-54 over the ids of `source`, in whatever
      order the dict or set yields them. */
  method BuildClassIndex(source: set<Id>, idToEc: map<Id, seq<Label>>) returns (ecToId: map<Label, seq<Id>>, ecNums: seq<Label>)
    requires source <= idToEc.Keys
    ensures IsClassIndex(ecToId, ecNums, source, idToEc)
  {
    ecToId, ecNums := map[], [];
    var todo := source;
    ghost var done: set<Id> := {};
    while todo != {}
      invariant todo !! done && todo + done == source
      invariant KeysTracked(ecToId, ecNums)
      invariant forall ec, x :: Count(Bearers(ecToId, ec), x) == Expected(done, idToEc, x, ec)
      decreases todo
    {
      var id :| id in todo;
      ghost var before := ecToId;
      ecToId, ecNums := AddBearer(ecToId, ecNums, id, idToEc[id]);
      forall ec, x ensures Count(Bearers(ecToId, ec), x) == Expected(done + {id}, idToEc, x, ec) {
        assert Count(Bearers(ecToId, ec), x) == Count(Bearers(before, ec), x) + (if x == id then Count(idToEc[id], ec) else 0);
      }
      done := done + {id};
      todo := todo - {id};
    }
  }

  // -----------------------------------------------------------------------
  // The dataset

  /** The file names `__init__` stores: the whole listing when no ids are
      given (non-.pt files included); otherwise one "<id>.pt" per requested
      id, each once, in unspecified order. */
  ghost predicate FilenamesResolved(listing: seq<string>, ids: Option<seq<Id>>, names: seq<string>)
  {
    match ids
    case None => names == listing
    case Some(l) =>
      && ResolveIds(listing, l).Success?
      && NoDuplicates(names)
      && Elems(names) == Suffixed(Elems(l))
  }

  /** `__init__` succeeds unless the id assertion fails, or class mode meets
      a stored requested id that `id_to_ec` lacks. */
  predicate InitSucceeds(listing: seq<string>, ids: Option<seq<Id>>, idToEc: map<Id, seq<Label>>, trainOnClasses: bool)
  {
    ids.Some? ==>
      && ResolveIds(listing, ids.value).Success?
      && (trainOnClasses ==> Elems(ids.value) <= idToEc.Keys)
  }

  class EmbeddingsAndLabelsDataset {
    const filepath: string
    const ids: Option<seq<Id>>
    const idToEc: map<Id, seq<Label>>
    const trainOnClasses: bool
    const embeddingFilenames: seq<string>
    /** Only meaningful in class mode (empty otherwise). */
    const ecToId: map<Label, seq<Id>>
    const ecNums: seq<Label>
    /** The listing of `filepath` at construction time. */
    ghost const listing: seq<string>

    ghost predicate Valid()
    {
      && FilenamesResolved(listing, ids, embeddingFilenames)
      && (trainOnClasses ==>
            && ClassSource(listing, ids, idToEc) <= idToEc.Keys
            && IsClassIndex(ecToId, ecNums, ClassSource(listing, ids, idToEc), idToEc))
    }

    /** The success path of `__init__`. */
    constructor (filepath: string, listing: seq<string>, ids: Option<seq<Id>>, idToEc: map<Id, seq<Label>>, trainOnClasses: bool)
      requires InitSucceeds(listing, ids, idToEc, trainOnClasses)
      ensures Valid()
      ensures this.filepath == filepath && this.listing == listing && this.ids == ids
      ensures this.idToEc == idToEc && this.trainOnClasses == trainOnClasses
    {
      this.filepath := filepath;
      this.listing := listing;
      this.ids := ids;
      this.idToEc := idToEc;
      this.trainOnClasses := trainOnClasses;
      var names := listing;
      if ids.Some? {
        names := NameFiles(FoundIds(listing, ids.value));
      }
      this.embeddingFilenames := names;
      var index: map<Label, seq<Id>>, keys: seq<Label> := map[], [];
      if trainOnClasses {
        index, keys := BuildClassIndex(ClassSource(listing, ids, idToEc), idToEc);
      }
      this.ecToId := index;
      this.ecNums := keys;
    }

    /** `__len__`: the number of distinct labels in class mode; otherwise the
        number of files, which is the listing's length without an id list
        and the number of requested ids with one. */
    function Len(): (n: nat)
      requires Valid()
      ensures trainOnClasses ==> n == |RawLabels(ClassSource(listing, ids, idToEc), idToEc)|
      ensures !trainOnClasses && ids.None? ==> n == |listing|
      ensures !trainOnClasses && ids.Some? ==> n == |Elems(ids.value)| == |ids.value|
    {
      if trainOnClasses then
        ClassIndexKeys(ecToId, ecNums, ClassSource(listing, ids, idToEc), idToEc);
        |ecNums|
      else
        if ids.Some? then
          DistinctCount(embeddingFilenames);
          SuffixedCount(Elems(ids.value));
          DistinctCount(ids.value);
          |embeddingFilenames|
        else
          |embeddingFilenames|
    }

    /** `__getitem__`. In class mode: the `idx`-th label, one of its bearers
        (any of them: the random draw), that bearer's embedding and the
        expansion of ALL its labels, which include the selected one. In
        per-item mode: the `idx`-th file and the labels under its stripped
        name. */
    method GetItem<E>(idx: int, load: string -> E) returns (r: Result<Sample<E>, ItemError>)
      requires Valid()
      ensures PyIndex(Len(), idx).None? ==> r == Failure(IndexOutOfRange)
      ensures trainOnClasses && PyIndex(Len(), idx).Some? ==>
        var ec := ecNums[PyIndex(Len(), idx).value];
        && r.Success?
        && (ec != [] ==> ec in r.value.labels)
        && exists id :: id in ecToId[ec] && id in idToEc && ec in idToEc[id]
             && r.value == Sample(load(filepath + "/" + id + PtSuffix), ExpandAll(idToEc[id]))
      ensures !trainOnClasses && PyIndex(Len(), idx).Some? ==>
        var f := embeddingFilenames[PyIndex(Len(), idx).value];
        r == if LabelKey(f) in idToEc
             then Success(Sample(load(filepath + "/" + f), ExpandAll(idToEc[LabelKey(f)])))
             else Failure(UnlabelledKey(LabelKey(f)))
    {
      var pos := PyIndex(if trainOnClasses then |ecNums| else |embeddingFilenames|, idx);
      if pos.None? {
        return Failure(IndexOutOfRange);
      }
      var i := pos.value;
      if trainOnClasses {
        var ec := ecNums[i];
        assert ec in Elems(ecNums);
        assert ecToId[ec] != [] && ecToId[ec][0] in ecToId[ec];
        var id :| id in ecToId[ec];
        BearerCarriesLabel(ecToId, ecNums, ClassSource(listing, ids, idToEc), idToEc, ec, id);
        var emb := load(filepath + "/" + id + PtSuffix);
        var labels := ExpandLabels(idToEc[id]);
        if ec != [] {
          ExpandAllKeepsLabels(idToEc[id], ec);
        }
        r := Success(Sample(emb, labels));
      } else {
        var f := embeddingFilenames[i];
        var emb := load(filepath + "/" + f);
        var key := LabelKey(f);
        if key !in idToEc {
          return Failure(UnlabelledKey(key));
        }
        var labels := ExpandLabels(idToEc[key]);
        r := Success(Sample(emb, labels));
      }
    }
  }

  /** `__init__`, failures included: the id assertion first, then, in class
      mode, the lookup of each stored requested id in `id_to_ec`. */
  method Create(filepath: string, listing: seq<string>, ids: Option<seq<Id>>, idToEc: map<Id, seq<Label>>, trainOnClasses: bool)
    returns (r: Result<EmbeddingsAndLabelsDataset, InitError>)
    ensures r.Success? <==> InitSucceeds(listing, ids, idToEc, trainOnClasses)
    ensures ids.Some? && ResolveIds(listing, ids.value).Failure? ==> r == Failure(ResolveIds(listing, ids.value).error)
    ensures r.Failure? ==> (r.error.UnlabelledId? <==> ids.Some? && ResolveIds(listing, ids.value).Success?)
    ensures r.Failure? && r.error.UnlabelledId? ==>
      trainOnClasses && ids.Some? && r.error.key in ids.value && r.error.key !in idToEc
    ensures r.Success? ==>
      && fresh(r.value) && r.value.Valid()
      && r.value.filepath == filepath && r.value.listing == listing && r.value.ids == ids
      && r.value.idToEc == idToEc && r.value.trainOnClasses == trainOnClasses
  {
    if ids.Some? {
      var resolved := ResolveIds(listing, ids.value);
      if resolved.Failure? {
        return Failure(resolved.error);
      }
      if trainOnClasses && !(Elems(ids.value) <= idToEc.Keys) {
        var key :| key in Elems(ids.value) && key !in idToEc;
        return Failure(UnlabelledId(key));
      }
    }
    var d := new EmbeddingsAndLabelsDataset(filepath, listing, ids, idToEc, trainOnClasses);
    r := Success(d);
  }

  /** Lines 65-67: `extend` each raw label's expansion onto the list. */
  method ExpandLabels(ecs: seq<Label>) returns (labels: seq<Label>)
    ensures labels == ExpandAll(ecs)
  {
    labels := [];
    for i := 0 to |ecs|
      invariant labels == ExpandAll(ecs[..i])
    {
      assert ecs[..i + 1][..i] == ecs[..i];
      labels := labels + Expand(ecs[i]);
    }
    assert ecs[..|ecs|] == ecs;
  }
}
