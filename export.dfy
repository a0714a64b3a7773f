/**
 * The exportable snapshot of a reference's OTUs: each OTU, isolate and sequence cut down
 * to a fixed set of keys, with remote identifiers taking the place of local ones.
 */
module Export {
  import opened Wrappers
  import opened Documents

  /** Reading a key the document does not hold. */
  datatype ExportError = KeyError(key: string)

  /** A cleaned document: its keys and their values. */
  type Document = map<string, Value>

  function KeySet(keys: seq<string>): set<string> {
    set k | k in keys
  }

  /** `keys or fallback`: a key list that is absent or empty falls back to the default. */
  function KeysOr(keys: Option<seq<string>>, fallback: seq<string>): seq<string> {
    if keys.Some? && keys.value != [] then keys.value else fallback
  }

  /** A stored document read key by key by the export. */
  datatype Stored = StoredSequence(sequence: Sequence) | StoredIsolate(isolate: Isolate)

  /** `doc[key]`: the stored value, `None` when the document lacks the key. */
  function Read(doc: Stored, key: string): Option<Value> {
    match doc
    case StoredSequence(s) => SequenceField(s, key)
    case StoredIsolate(i) => IsolateField(i, key)
  }

  /** The first of `keys`, in order, that `doc` lacks. */
  function FirstMissing(doc: Stored, keys: seq<string>): (r: Option<string>)
    ensures r.None? <==> forall k :: k in keys ==> Read(doc, k).Some?
    ensures r.Some? ==> r.value in keys && Read(doc, r.value).None?
    ensures r.Some? ==>
      (exists n :: 0 <= n < |keys| && keys[n] == r.value && forall m :: 0 <= m < n ==> Read(doc, keys[m]).Some?)
  {
    if keys == [] then None
    else if Read(doc, keys[0]).None? then Some(keys[0])
    else FirstMissing(doc, keys[1..])
  }

  /** `{key: doc[key] for key in keys}`, failing on the first key the document lacks. */
  function Pick(doc: Stored, keys: seq<string>): (r: Result<Document, ExportError>)
    ensures r.Ok? <==> forall k :: k in keys ==> Read(doc, k).Some?
    ensures r.Ok? ==> r.value.Keys == KeySet(keys)
    ensures r.Ok? ==> forall k :: k in r.value ==> Read(doc, k) == Some(r.value[k])
    ensures r.Err? ==> r.error.key in keys && Read(doc, r.error.key).None?
    ensures r.Err? ==>
      (exists n :: 0 <= n < |keys| && keys[n] == r.error.key && forall m :: 0 <= m < n ==> Read(doc, keys[m]).Some?)
  {
    match FirstMissing(doc, keys)
    case Some(k) => Err(KeyError(k))
    case None => Ok(map k | k in keys :: Read(doc, k).value)
  }

  /** A one-entry document when the field is present, the empty one otherwise. */
  function Optional(key: string, v: Option<Value>): (d: Document)
    ensures d.Keys == if v.Some? then {key} else {}
    ensures v.Some? ==> d[key] == v.value
  {
    if v.Some? then map[key := v.value] else map[]
  }

  /**
   * The cleaned sequence: exactly `keys`, each required, plus `segment` and `target` when
   * the sequence has them; every value is the sequence's own.
   */
  function CleanSequence(s: Sequence, keys: seq<string>): (r: Result<Document, ExportError>)
    ensures r.Ok? <==> forall k :: k in keys ==> SequenceField(s, k).Some?
    ensures r.Ok? ==>
      r.value.Keys == KeySet(keys)
        + (if s.segment.Some? then {"segment"} else {})
        + (if s.target.Some? then {"target"} else {})
    ensures r.Ok? ==> forall k :: k in r.value ==> SequenceField(s, k) == Some(r.value[k])
    ensures r.Err? ==> r.error.key in keys && SequenceField(s, r.error.key).None?
  {
    match Pick(StoredSequence(s), keys)
    case Err(e) => Err(e)
    case Ok(d) => Ok(d + Optional("segment", s.segment) + Optional("target", s.target))
  }

  /**
   * `[clean(x) for x in xs]`, each cleaned document wrapped as an object, in order; the
   * first failure ends the list and is its result.
   */
  function CleanEach<T>(clean: T -> Result<Document, ExportError>, xs: seq<T>): (r: Result<seq<Value>, ExportError>)
    ensures r.Ok? <==> forall i :: 0 <= i < |xs| ==> clean(xs[i]).Ok?
    ensures r.Ok? ==> |r.value| == |xs|
    ensures r.Ok? ==> forall i :: 0 <= i < |xs| ==> r.value[i] == Object(clean(xs[i]).value)
    ensures r.Err? ==>
      (exists i :: 0 <= i < |xs| && clean(xs[i]) == Err(r.error) && forall l :: 0 <= l < i ==> clean(xs[l]).Ok?)
  {
    if xs == [] then Ok([])
    else match clean(xs[0])
      case Err(e) => Err(e)
      case Ok(first) =>
        match CleanEach(clean, xs[1..])
        case Err(e) => Err(e)
        case Ok(rest) => Ok([Object(first)] + rest)
  }

  /**
   * The cleaned isolate: exactly the isolate keys, each required and copied, plus its
   * cleaned sequences, as many as it has and in the same order.
   */
  function CleanIsolate(isolate: Isolate, keys: seq<string>): (r: Result<Document, ExportError>)
    ensures r.Ok? <==>
      && (forall k :: k in IsolateKeys ==> IsolateField(isolate, k).Some?)
      && (forall i :: 0 <= i < |isolate.sequences| ==> CleanSequence(isolate.sequences[i], keys).Ok?)
    ensures r.Ok? ==> r.value.Keys == KeySet(IsolateKeys) + {"sequences"}
    ensures r.Ok? ==> forall k :: k in IsolateKeys ==> IsolateField(isolate, k) == Some(r.value[k])
    ensures r.Ok? ==> r.value["sequences"].List? && |r.value["sequences"].items| == |isolate.sequences|
    ensures r.Ok? ==> forall i :: 0 <= i < |isolate.sequences| ==>
      r.value["sequences"].items[i] == Object(CleanSequence(isolate.sequences[i], keys).value)
    ensures r.Err? ==>
      || (r.error.key in IsolateKeys && IsolateField(isolate, r.error.key).None?)
      || (exists i :: 0 <= i < |isolate.sequences| && CleanSequence(isolate.sequences[i], keys) == Err(r.error))
  {
    match Pick(StoredIsolate(isolate), IsolateKeys)
    case Err(e) => Err(e)
    case Ok(d) =>
      match CleanEach(s => CleanSequence(s, keys), isolate.sequences)
      case Err(e) => Err(e)
      case Ok(sequences) => Ok(d["sequences" := List(sequences)])
  }

  /**
   * The exportable form of one OTU. Its keys are exactly the OTU keys (each read with a
   * `None` default) plus `isolates` and `schema`; `schema` falls back to the empty list.
   * An absent or empty key list means the defaults, which leave out `_id`.
   */
  function PrepareExportableOtu(otu: Otu, otuKeys: Option<seq<string>>, sequenceKeys: Option<seq<string>>)
    : (r: Result<Document, ExportError>)
    ensures r.Ok? <==> forall i :: 0 <= i < |otu.isolates| ==>
      CleanIsolate(otu.isolates[i], KeysOr(sequenceKeys, SequenceKeys)).Ok?
    ensures r.Ok? ==> r.value.Keys == KeySet(KeysOr(otuKeys, OtuKeys)) + {"isolates", "schema"}
    ensures r.Ok? ==> r.value["schema"] == otu.schema.GetOr(List([]))
    ensures r.Ok? ==> forall k :: k in KeysOr(otuKeys, OtuKeys) && k != "isolates" && k != "schema" ==>
      r.value[k] == OtuField(otu, k).GetOr(Null)
    ensures r.Ok? ==> r.value["isolates"].List? && |r.value["isolates"].items| == |otu.isolates|
    ensures r.Ok? ==> forall i :: 0 <= i < |otu.isolates| ==>
      r.value["isolates"].items[i] == Object(CleanIsolate(otu.isolates[i], KeysOr(sequenceKeys, SequenceKeys)).value)
    ensures r.Err? ==>
      exists i :: 0 <= i < |otu.isolates| &&
        CleanIsolate(otu.isolates[i], KeysOr(sequenceKeys, SequenceKeys)) == Err(r.error)
  {
    var keys := KeysOr(otuKeys, OtuKeys);
    var cleaned := map k | k in keys :: OtuField(otu, k).GetOr(Null);
    match CleanEach(i => CleanIsolate(i, KeysOr(sequenceKeys, SequenceKeys)), otu.isolates)
    case Err(e) => Err(e)
    case Ok(isolates) => Ok(cleaned["isolates" := List(isolates)]["schema" := otu.schema.GetOr(List([]))])
  }

  /**
   * Cleaning an OTU fails exactly when one of its isolates lacks an isolate key or one of
   * its sequences lacks a requested sequence key; OTU keys never fail, they read `None`.
   */
  lemma ExportableOtuSucceeds(otu: Otu, otuKeys: Option<seq<string>>, sequenceKeys: Option<seq<string>>)
    ensures var keys := KeysOr(sequenceKeys, SequenceKeys);
      PrepareExportableOtu(otu, otuKeys, sequenceKeys).Ok? <==>
        && (forall i, k :: 0 <= i < |otu.isolates| && k in IsolateKeys ==> IsolateField(otu.isolates[i], k).Some?)
        && (forall i, j, k :: 0 <= i < |otu.isolates| && 0 <= j < |otu.isolates[i].sequences| && k in keys ==>
              SequenceField(otu.isolates[i].sequences[j], k).Some?)
  {
  }

  /** The cleaned isolate `i` of a cleaned OTU, when there is one. */
  function ExportedIsolate(cleaned: Document, i: nat): Option<Document> {
    if "isolates" in cleaned && cleaned["isolates"].List? && i < |cleaned["isolates"].items|
       && cleaned["isolates"].items[i].Object?
    then Some(cleaned["isolates"].items[i].fields)
    else None
  }

  /** The cleaned sequence `j` of the cleaned isolate `i` of a cleaned OTU, when there is one. */
  function ExportedSequence(cleaned: Document, i: nat, j: nat): Option<Document> {
    match ExportedIsolate(cleaned, i)
    case None => None
    case Some(isolate) =>
      if "sequences" in isolate && isolate["sequences"].List? && j < |isolate["sequences"].items|
         && isolate["sequences"].items[j].Object?
      then Some(isolate["sequences"].items[j].fields)
      else None
  }

  /** Isolates and sequences keep their count and order: each sits where its source did. */
  lemma ExportedSequenceAt(otu: Otu, otuKeys: Option<seq<string>>, sequenceKeys: Option<seq<string>>, i: nat, j: nat)
    requires PrepareExportableOtu(otu, otuKeys, sequenceKeys).Ok?
    requires i < |otu.isolates| && j < |otu.isolates[i].sequences|
    ensures var cleaned := PrepareExportableOtu(otu, otuKeys, sequenceKeys).value;
      && ExportedIsolate(cleaned, i) == Some(CleanIsolate(otu.isolates[i], KeysOr(sequenceKeys, SequenceKeys)).value)
      && ExportedSequence(cleaned, i, j)
         == Some(CleanSequence(otu.isolates[i].sequences[j], KeysOr(sequenceKeys, SequenceKeys)).value)
  {
  }

  /** With no key lists (or empty ones) the defaults apply, and they carry no `_id`. */
  lemma DefaultKeysOmitId(otu: Otu)
    requires PrepareExportableOtu(otu, None, None).Ok?
    ensures var cleaned := PrepareExportableOtu(otu, None, None).value;
      && cleaned.Keys == {"name", "abbreviation", "schema", "isolates"}
      && forall i, j :: 0 <= i < |otu.isolates| && 0 <= j < |otu.isolates[i].sequences| ==>
           ExportedSequence(cleaned, i, j).Some? && "_id" !in ExportedSequence(cleaned, i, j).value
  {
    DefaultKeySets();
    forall i, j | 0 <= i < |otu.isolates| && 0 <= j < |otu.isolates[i].sequences|
      ensures var cleaned := PrepareExportableOtu(otu, None, None).value;
        ExportedSequence(cleaned, i, j).Some? && "_id" !in ExportedSequence(cleaned, i, j).value
    {
      ExportedSequenceAt(otu, None, None, i, j);
    }
  }

  lemma DefaultKeySets()
    ensures KeySet(OtuKeys) + {"isolates", "schema"} == {"name", "abbreviation", "schema", "isolates"}
    ensures "_id" !in KeySet(SequenceKeys)
  {
    forall k | k in KeySet(OtuKeys)
      ensures k in {"name", "abbreviation", "schema"}
    {
      assert k in OtuKeys;
    }
    assert OtuKeys[0] == "name" && OtuKeys[1] == "abbreviation" && OtuKeys[2] == "schema";
    assert "name" in KeySet(OtuKeys) && "abbreviation" in KeySet(OtuKeys) && "schema" in KeySet(OtuKeys);
    forall k | k in SequenceKeys
      ensures k != "_id"
    {
      assert |k| >= 4;
    }
  }

  /** The sequence with `remote.id` in place of its `_id` when it has one. */
  function WithRemoteId(s: Sequence): Sequence {
    s.(id := RemoteIdOr(s.id, s.remote))
  }

  /** The sequences with their identifiers replaced as `WithRemoteId` does. */
  function SequencesWithRemoteIds(sequences: seq<Sequence>): (r: seq<Sequence>)
    ensures |r| == |sequences|
    ensures forall j :: 0 <= j < |sequences| ==> r[j] == WithRemoteId(sequences[j])
  {
    if sequences == [] then []
    else [WithRemoteId(sequences[0])] + SequencesWithRemoteIds(sequences[1..])
  }

  /** The isolates with every sequence's identifier replaced as `WithRemoteId` does. */
  function IsolatesWithRemoteIds(isolates: seq<Isolate>): (r: seq<Isolate>)
    ensures |r| == |isolates|
    ensures forall i :: 0 <= i < |isolates| ==>
      r[i] == isolates[i].(sequences := SequencesWithRemoteIds(isolates[i].sequences))
  {
    if isolates == [] then []
    else
      [isolates[0].(sequences := SequencesWithRemoteIds(isolates[0].sequences))]
        + IsolatesWithRemoteIds(isolates[1..])
  }

  /** The OTU document after the in-place identifier overwrite of the export. */
  function WithRemoteIds(otu: Otu): Otu {
    otu.(id := RemoteIdOr(otu.id, otu.remote), isolates := IsolatesWithRemoteIds(otu.isolates))
  }

  /**
   * Replacing identifiers twice is the same as once: the overwrite reads `remote.id`, which
   * it never changes, so an OTU or a sequence reached a second time (a document shared by
   * two OTUs, or an export run again on its own output) ends up the same.
   */
  lemma WithRemoteIdsIdempotent(otu: Otu)
    ensures WithRemoteIds(WithRemoteIds(otu)) == WithRemoteIds(otu)
  {
    var once := WithRemoteIds(otu);
    var twice := WithRemoteIds(once);
    forall i | 0 <= i < |otu.isolates|
      ensures twice.isolates[i] == once.isolates[i]
    {
      var ss := otu.isolates[i].sequences;
      assert once.isolates[i].sequences == SequencesWithRemoteIds(ss);
      forall j | 0 <= j < |ss|
        ensures twice.isolates[i].sequences[j] == once.isolates[i].sequences[j]
      {
        assert RemoteIdOr(RemoteIdOr(ss[j].id, ss[j].remote), ss[j].remote) == RemoteIdOr(ss[j].id, ss[j].remote);
      }
    }
  }

  /** The keys the export asks of each OTU and each sequence: the defaults plus `_id`. */
  const ExportOtuKeys: seq<string> := OtuKeys + ["_id"]
  const ExportSequenceKeys: seq<string> := SequenceKeys + ["_id"]

  /** One OTU cleaned with the export's key lists, which keep `_id`. */
  function CleanForExport(otu: Otu): Result<Document, ExportError> {
    PrepareExportableOtu(otu, Some(ExportOtuKeys), Some(ExportSequenceKeys))
  }

  /** The exported form of one OTU: identifiers replaced, then cleaned with `_id` kept. */
  function ExportOtu(otu: Otu): Result<Document, ExportError> {
    CleanForExport(WithRemoteIds(otu))
  }

  /** The exported OTU carries `remote.id` as its `_id` when it has one, its own `_id` otherwise. */
  lemma ExportedOtuId(otu: Otu)
    requires ExportOtu(otu).Ok?
    ensures "_id" in ExportOtu(otu).value
    ensures ExportOtu(otu).value["_id"] == Str(RemoteIdOr(otu.id, otu.remote))
  {
    assert "_id" in ExportOtuKeys;
  }

  /**
   * Each exported sequence carries `remote.id` as its `_id` when it has one, never its local
   * identifier; its own `_id` otherwise.
   */
  lemma ExportedSequenceId(otu: Otu, i: nat, j: nat)
    requires ExportOtu(otu).Ok?
    requires i < |otu.isolates| && j < |otu.isolates[i].sequences|
    ensures var e := ExportedSequence(ExportOtu(otu).value, i, j);
      && e.Some? && "_id" in e.value
      && e.value["_id"] == Str(RemoteIdOr(otu.isolates[i].sequences[j].id, otu.isolates[i].sequences[j].remote))
  {
    var patched := WithRemoteIds(otu);
    ExportedSequenceAt(patched, Some(ExportOtuKeys), Some(ExportSequenceKeys), i, j);
    assert patched.isolates[i].sequences[j] == WithRemoteId(otu.isolates[i].sequences[j]);
    assert "_id" in ExportSequenceKeys;
  }

  /**
   * The export of a list of OTUs, each by `step`, in order, stopping at the first failure.
   * It is stated for any per-OTU export so that its properties do not depend on how one OTU
   * is cleaned.
   */
  function ExportEach(step: Otu -> Result<Document, ExportError>, otus: seq<Otu>)
    : Result<seq<Document>, ExportError>
  {
    if otus == [] then Ok([])
    else match ExportEach(step, otus[..|otus| - 1])
      case Err(e) => Err(e)
      case Ok(cleaned) =>
        match step(otus[|otus| - 1])
        case Err(e) => Err(e)
        case Ok(c) => Ok(cleaned + [c])
  }

  /** The export of a list of OTUs. */
  function ExportOtus(otus: seq<Otu>): Result<seq<Document>, ExportError> {
    ExportEach(ExportOtu, otus)
  }

  /** How many OTUs `ExportEach` reaches: all, or up to and including the failing one. */
  function ExportReach(step: Otu -> Result<Document, ExportError>, otus: seq<Otu>): (n: nat)
    ensures n <= |otus|
  {
    if otus == [] then 0
    else if ExportEach(step, otus[..|otus| - 1]).Err? then ExportReach(step, otus[..|otus| - 1])
    else |otus|
  }

  /**
   * One cleaned OTU per input OTU, in input order, when every OTU can be exported; the
   * export fails exactly when some OTU cannot be, and then with that OTU's error.
   */
  lemma {:induction false} ExportEachShape(step: Otu -> Result<Document, ExportError>, otus: seq<Otu>)
    ensures ExportEach(step, otus).Ok? <==> forall i :: 0 <= i < |otus| ==> step(otus[i]).Ok?
    ensures ExportEach(step, otus).Ok? ==> |ExportEach(step, otus).value| == |otus|
    ensures ExportEach(step, otus).Ok? ==>
      forall i :: 0 <= i < |otus| ==> ExportEach(step, otus).value[i] == step(otus[i]).value
    ensures ExportEach(step, otus).Err? ==>
      exists i :: 0 <= i < |otus| && step(otus[i]) == Err(ExportEach(step, otus).error)
  {
    if otus != [] {
      var init := otus[..|otus| - 1];
      ExportEachShape(step, init);
      assert forall i :: 0 <= i < |init| ==> init[i] == otus[i];
    }
  }

  /** The shape of `ExportEach` for the export's own per-OTU step. */
  lemma ExportOtusShape(otus: seq<Otu>)
    ensures ExportOtus(otus).Ok? <==> forall i :: 0 <= i < |otus| ==> ExportOtu(otus[i]).Ok?
    ensures ExportOtus(otus).Ok? ==> |ExportOtus(otus).value| == |otus|
    ensures ExportOtus(otus).Ok? ==>
      forall i :: 0 <= i < |otus| ==> ExportOtus(otus).value[i] == ExportOtu(otus[i]).value
    ensures ExportOtus(otus).Err? ==>
      exists i :: 0 <= i < |otus| && ExportOtu(otus[i]) == Err(ExportOtus(otus).error)
  {
    ExportEachShape(ExportOtu, otus);
  }

  /**
   * Export the OTUs, overwriting in place the `_id` of each OTU and of each of its sequences
   * with its `remote.id` when it has one, and collecting the cleaned OTUs. A failure ends the
   * export; the OTUs before it and the failing one itself stay overwritten.
   */
  method PrepareExportOtus(otus: array<Otu>) returns (r: Result<seq<Document>, ExportError>)
    modifies otus
    ensures r == ExportOtus(old(otus[..]))
    ensures forall k :: 0 <= k < otus.Length ==>
      otus[k] == if k < ExportReach(ExportOtu, old(otus[..])) then WithRemoteIds(old(otus[k])) else old(otus[k])
  {
    ghost var original := otus[..];
    var cleaned: seq<Document> := [];
    var i := 0;
    while i < otus.Length
      invariant 0 <= i <= otus.Length
      invariant ExportEach(ExportOtu, original[..i]) == Ok(cleaned)
      invariant forall k :: 0 <= k < i ==> otus[k] == WithRemoteIds(original[k])
      invariant forall k :: i <= k < otus.Length ==> otus[k] == original[k]
    {
      var otu := WithRemoteIds(otus[i]);
      otus[i] := otu;
      assert forall k :: 0 <= k <= i ==> otus[k] == WithRemoteIds(original[k]);
      var c := CleanForExport(otu);
      assert c == ExportOtu(original[i]);
      ExportEachSnoc(ExportOtu, original, i);
      if c.Err? {
        r := Err(c.error);
        ExportFailureIsFinal(ExportOtu, original, i + 1);
        return;
      }
      cleaned := cleaned + [c.value];
      i := i + 1;
    }
    assert original[..i] == original;
    ExportReachAll(ExportOtu, original);
    r := Ok(cleaned);
  }

  lemma ExportEachSnoc(step: Otu -> Result<Document, ExportError>, otus: seq<Otu>, i: nat)
    requires i < |otus| && ExportEach(step, otus[..i]).Ok?
    ensures ExportEach(step, otus[..i + 1]) ==
      match step(otus[i])
      case Err(e) => Err(e)
      case Ok(c) => Ok(ExportEach(step, otus[..i]).value + [c])
  {
    assert otus[..i + 1][..i] == otus[..i];
  }

  lemma {:induction false} ExportReachAll(step: Otu -> Result<Document, ExportError>, otus: seq<Otu>)
    requires ExportEach(step, otus).Ok?
    ensures ExportReach(step, otus) == |otus|
  {
  }

  /** Once the export has failed on a prefix, the rest of the OTUs change nothing. */
  lemma {:induction false} ExportFailureIsFinal(step: Otu -> Result<Document, ExportError>, otus: seq<Otu>, n: nat)
    requires 0 < n <= |otus|
    requires ExportEach(step, otus[..n - 1]).Ok? && ExportEach(step, otus[..n]).Err?
    ensures ExportEach(step, otus) == ExportEach(step, otus[..n])
    ensures ExportReach(step, otus) == n
  {
    if n < |otus| {
      var init := otus[..|otus| - 1];
      assert init[..n] == otus[..n];
      assert init[..n - 1] == otus[..n - 1];
      ExportFailureIsFinal(step, init, n);
    } else {
      assert otus[..n] == otus;
      assert otus[..n - 1] == otus[..|otus| - 1];
    }
  }
}
