/**
 * Sequence selection for the index: which sequences of the patched OTUs go into the
 * index, and the sequence-to-OTU ownership map filled while selecting them.
 */
module Extraction {
  import opened Wrappers
  import opened Documents

  /** The reference data type whose indexes hold every sequence. */
  const Barcode: string := "barcode"

  /** The sequences of `isolates`, isolate by isolate, each isolate's in list order. */
  function IsolateSequences(isolates: seq<Isolate>): (r: seq<Sequence>)
    ensures |r| == SequenceCount(isolates)
  {
    if isolates == [] then []
    else IsolateSequences(isolates[..|isolates| - 1]) + isolates[|isolates| - 1].sequences
  }

  /** The total number of sequences held by `isolates`. */
  function SequenceCount(isolates: seq<Isolate>): nat {
    if isolates == [] then 0
    else SequenceCount(isolates[..|isolates| - 1]) + |isolates[|isolates| - 1].sequences|
  }

  /** The sequences of every isolate of `otu` (a generator in utils.py, here its whole output). */
  function ExtractSequences(otu: Otu): seq<Sequence> {
    IsolateSequences(otu.isolates)
  }

  /** Sequence `j` of isolate `i` sits at offset `SequenceCount(isolates[..i]) + j` of the output. */
  lemma {:induction false} ExtractSequencesPosition(isolates: seq<Isolate>, i: nat, j: nat)
    requires i < |isolates| && j < |isolates[i].sequences|
    ensures SequenceCount(isolates[..i]) + j < |IsolateSequences(isolates)|
    ensures IsolateSequences(isolates)[SequenceCount(isolates[..i]) + j] == isolates[i].sequences[j]
  {
    var n := |isolates|;
    var init := isolates[..n - 1];
    if i == n - 1 {
      assert init == isolates[..i];
    } else {
      assert init[..i] == isolates[..i];
      ExtractSequencesPosition(init, i, j);
    }
  }

  /**
   * Conversely, every position of the output is sequence `j` of some isolate `i`: together
   * with the length and the lemma above, every sequence appears exactly once, in order.
   */
  lemma {:induction false} ExtractSequencesOrigin(isolates: seq<Isolate>, k: nat) returns (i: nat, j: nat)
    requires k < |IsolateSequences(isolates)|
    ensures i < |isolates| && j < |isolates[i].sequences|
    ensures k == SequenceCount(isolates[..i]) + j
    ensures IsolateSequences(isolates)[k] == isolates[i].sequences[j]
  {
    var n := |isolates|;
    var init := isolates[..n - 1];
    if k < |IsolateSequences(init)| {
      i, j := ExtractSequencesOrigin(init, k);
      assert init[..i] == isolates[..i];
    } else {
      i, j := n - 1, k - |IsolateSequences(init)|;
      assert init == isolates[..i];
    }
  }

  /** The sequences of the first isolate flagged default, if any. */
  function FirstDefault(isolates: seq<Isolate>): (r: Option<seq<Sequence>>)
    ensures r.None? <==> forall i :: 0 <= i < |isolates| ==> !isolates[i].default
  {
    if isolates == [] then None
    else if isolates[0].default then Some(isolates[0].sequences)
    else FirstDefault(isolates[1..])
  }

  /** The sequences of the OTU's default isolate; `None` when no isolate is default. */
  function ExtractDefaultSequences(otu: Otu): Option<seq<Sequence>> {
    FirstDefault(otu.isolates)
  }

  /** The first default isolate wins: later default isolates are ignored. */
  lemma {:induction false} FirstDefaultWins(isolates: seq<Isolate>, k: nat)
    requires k < |isolates| && isolates[k].default
    requires forall i :: 0 <= i < k ==> !isolates[i].default
    ensures FirstDefault(isolates) == Some(isolates[k].sequences)
  {
    if k > 0 {
      assert !isolates[0].default;
      FirstDefaultWins(isolates[1..], k - 1);
    }
  }

  /** When a default isolate exists, its index: the witness for `FirstDefaultWins`. */
  lemma {:induction false} FirstDefaultIndex(isolates: seq<Isolate>) returns (k: nat)
    requires FirstDefault(isolates).Some?
    ensures k < |isolates| && isolates[k].default
    ensures forall i :: 0 <= i < k ==> !isolates[i].default
    ensures FirstDefault(isolates).value == isolates[k].sequences
  {
    if isolates[0].default {
      k := 0;
    } else {
      var k' := FirstDefaultIndex(isolates[1..]);
      k := k' + 1;
    }
  }

  /** The sequences one OTU contributes to the index under the reference's data type. */
  function SelectSequences(otu: Otu, dataType: string): Option<seq<Sequence>> {
    if dataType == Barcode then Some(ExtractSequences(otu)) else ExtractDefaultSequences(otu)
  }

  /** How consuming the sequence stream ended. */
  datatype Outcome =
    | Exhausted
      /** Iterating the missing default sequences of this OTU failed. */
    | NoDefaultIsolate(otuId: string)

  /**
   * The stream once fully consumed: what it emitted, how it ended, and how many OTUs it
   * visited (recorded in the ownership map).
   */
  datatype StreamResult = StreamResult(emitted: seq<Sequence>, outcome: Outcome, visited: nat)

  /** The result of consuming the sequence stream over `otus`. */
  function PatchedOtuSequences(otus: seq<Otu>, dataType: string): (r: StreamResult)
    ensures r.visited <= |otus|
    ensures r.outcome.Exhausted? ==> r.visited == |otus|
    ensures r.outcome.NoDefaultIsolate? ==>
      && dataType != Barcode && r.visited > 0
      && r.outcome.otuId == otus[r.visited - 1].id
      && ExtractDefaultSequences(otus[r.visited - 1]).None?
  {
    if otus == [] then StreamResult([], Exhausted, 0)
    else
      var prev := PatchedOtuSequences(otus[..|otus| - 1], dataType);
      var otu := otus[|otus| - 1];
      if prev.outcome.NoDefaultIsolate? then prev
      else match SelectSequences(otu, dataType)
        case None => StreamResult(prev.emitted, NoDefaultIsolate(otu.id), |otus|)
        case Some(s) => StreamResult(prev.emitted + s, Exhausted, |otus|)
  }

  /** `m` with every sequence of `sequences` mapped to `owner`, one write per sequence in order. */
  function Assign(m: map<string, string>, sequences: seq<Sequence>, owner: string): map<string, string> {
    if sequences == [] then m
    else Assign(m, sequences[..|sequences| - 1], owner)[sequences[|sequences| - 1].id := owner]
  }

  /** The ownership map after visiting `otus` in order, starting from `m`. */
  function RecordOwners(m: map<string, string>, otus: seq<Otu>): map<string, string> {
    if otus == [] then m
    else
      var last := otus[|otus| - 1];
      Assign(RecordOwners(m, otus[..|otus| - 1]), ExtractSequences(last), last.id)
  }

  /** The identifiers of `sequences`. */
  function Ids(sequences: seq<Sequence>): set<string> {
    set s | s in sequences :: s.id
  }

  /** The identifiers of every sequence of every isolate of `otu`. */
  function SequenceIds(otu: Otu): set<string> {
    Ids(ExtractSequences(otu))
  }

  lemma {:induction false} AssignAt(m: map<string, string>, sequences: seq<Sequence>, owner: string, x: string)
    ensures x in Assign(m, sequences, owner) <==> x in m || x in Ids(sequences)
    ensures x in Ids(sequences) ==> Assign(m, sequences, owner)[x] == owner
    ensures x in m && x !in Ids(sequences) ==> Assign(m, sequences, owner)[x] == m[x]
  {
    if sequences != [] {
      var init := sequences[..|sequences| - 1];
      var last := sequences[|sequences| - 1];
      assert sequences == init + [last];
      assert Ids(sequences) == Ids(init) + {last.id};
      AssignAt(m, init, owner, x);
    }
  }

  /**
   * After visiting `otus` a key is in the ownership map iff it was there before or is the
   * identifier of a sequence of a visited OTU.
   */
  lemma {:induction false} RecordOwnersKeys(m: map<string, string>, otus: seq<Otu>, x: string)
    ensures x in RecordOwners(m, otus) <==>
      x in m || exists k :: 0 <= k < |otus| && x in SequenceIds(otus[k])
  {
    if otus != [] {
      var n := |otus|;
      var init := otus[..n - 1];
      var last := otus[n - 1];
      RecordOwnersKeys(m, init, x);
      AssignAt(RecordOwners(m, init), ExtractSequences(last), last.id, x);
      assert forall k :: 0 <= k < n - 1 ==> init[k] == otus[k];
      if exists k :: 0 <= k < n && x in SequenceIds(otus[k]) {
        var k :| 0 <= k < n && x in SequenceIds(otus[k]);
        if k < n - 1 {
          assert x in SequenceIds(init[k]);
        }
      }
    }
  }

  /**
   * A sequence identifier maps to the last OTU, in visiting order, holding a sequence with
   * that identifier: later writes overwrite earlier ones.
   */
  lemma {:induction false} RecordOwnersLastWins(m: map<string, string>, otus: seq<Otu>, x: string, k: nat)
    requires k < |otus| && x in SequenceIds(otus[k])
    requires forall l :: k < l < |otus| ==> x !in SequenceIds(otus[l])
    ensures x in RecordOwners(m, otus) && RecordOwners(m, otus)[x] == otus[k].id
  {
    var n := |otus|;
    var init := otus[..n - 1];
    var last := otus[n - 1];
    AssignAt(RecordOwners(m, init), ExtractSequences(last), last.id, x);
    if k < n - 1 {
      assert x !in SequenceIds(last);
      assert forall l :: k < l < n - 1 ==> init[l] == otus[l];
      RecordOwnersLastWins(m, init, x, k);
    }
  }

  /** Keys that no visited OTU's sequence carries keep their previous value. */
  lemma {:induction false} RecordOwnersKeeps(m: map<string, string>, otus: seq<Otu>, x: string)
    requires x in m && forall k :: 0 <= k < |otus| ==> x !in SequenceIds(otus[k])
    ensures x in RecordOwners(m, otus) && RecordOwners(m, otus)[x] == m[x]
  {
    if otus != [] {
      var n := |otus|;
      var init := otus[..n - 1];
      var last := otus[n - 1];
      assert forall k :: 0 <= k < n - 1 ==> init[k] == otus[k];
      RecordOwnersKeeps(m, init, x);
      AssignAt(RecordOwners(m, init), ExtractSequences(last), last.id, x);
    }
  }

  /** The caller's sequence-to-OTU map, which sequence selection fills in place. */
  class SequenceOtuMap {
    var entries: map<string, string>

    constructor ()
      ensures entries == map[]
    {
      entries := map[];
    }
  }

  /**
   * Consume the sequence stream over `otus`: the sequences to index, how the stream ended,
   * and, written into `sequenceOtuMap`, the owner of every sequence of every visited OTU.
   * For a barcode reference every sequence is emitted; otherwise those of each OTU's first
   * default isolate, and an OTU without one ends the stream with a failure after its own
   * sequences were recorded.
   */
  method GetSequencesFromPatchedOtus(otus: seq<Otu>, dataType: string, sequenceOtuMap: SequenceOtuMap)
    returns (emitted: seq<Sequence>, outcome: Outcome)
    modifies sequenceOtuMap
    ensures var x := PatchedOtuSequences(otus, dataType);
      && emitted == x.emitted && outcome == x.outcome
      && sequenceOtuMap.entries == RecordOwners(old(sequenceOtuMap.entries), otus[..x.visited])
  {
    emitted, outcome := [], Exhausted;
    var i := 0;
    while i < |otus|
      invariant 0 <= i <= |otus|
      invariant PatchedOtuSequences(otus[..i], dataType) == StreamResult(emitted, Exhausted, i)
      invariant sequenceOtuMap.entries == RecordOwners(old(sequenceOtuMap.entries), otus[..i])
    {
      var otu := otus[i];
      var otuId := otu.id;
      ghost var before := sequenceOtuMap.entries;
      var k := 0;
      while k < |otu.isolates|
        invariant 0 <= k <= |otu.isolates|
        invariant sequenceOtuMap.entries == Assign(before, IsolateSequences(otu.isolates[..k]), otuId)
      {
        var isolate := otu.isolates[k];
        ghost var done := IsolateSequences(otu.isolates[..k]);
        var j := 0;
        assert done + isolate.sequences[..j] == done;
        while j < |isolate.sequences|
          invariant 0 <= j <= |isolate.sequences|
          invariant sequenceOtuMap.entries == Assign(before, done + isolate.sequences[..j], otuId)
        {
          var sequenceId := isolate.sequences[j].id;
          sequenceOtuMap.entries := sequenceOtuMap.entries[sequenceId := otuId];
          assert done + isolate.sequences[..j + 1] == (done + isolate.sequences[..j]) + [isolate.sequences[j]];
          AssignSnoc(before, done + isolate.sequences[..j], isolate.sequences[j], otuId);
          j := j + 1;
        }
        assert isolate.sequences[..j] == isolate.sequences;
        IsolateSequencesSnoc(otu.isolates, k);
        k := k + 1;
      }
      assert otu.isolates[..k] == otu.isolates;
      PrefixSnoc(old(sequenceOtuMap.entries), otus, dataType, i);
      if dataType == Barcode {
        emitted := emitted + ExtractSequences(otu);
      } else {
        var defaults := ExtractDefaultSequences(otu);
        if defaults.None? {
          outcome := NoDefaultIsolate(otuId);
          FailureIsFinal(otus, dataType, i + 1);
          return;
        }
        emitted := emitted + defaults.value;
      }
      i := i + 1;
    }
    assert otus[..i] == otus;
  }

  lemma AssignSnoc(m: map<string, string>, sequences: seq<Sequence>, s: Sequence, owner: string)
    ensures Assign(m, sequences + [s], owner) == Assign(m, sequences, owner)[s.id := owner]
  {
    assert (sequences + [s])[..|sequences|] == sequences;
  }

  lemma IsolateSequencesSnoc(isolates: seq<Isolate>, k: nat)
    requires k < |isolates|
    ensures IsolateSequences(isolates[..k + 1]) == IsolateSequences(isolates[..k]) + isolates[k].sequences
  {
    assert isolates[..k + 1][..k] == isolates[..k];
  }

  /** Unfolds the ownership map and the stream one OTU further. */
  lemma PrefixSnoc(m: map<string, string>, otus: seq<Otu>, dataType: string, i: nat)
    requires i < |otus|
    ensures RecordOwners(m, otus[..i + 1]) == Assign(RecordOwners(m, otus[..i]), ExtractSequences(otus[i]), otus[i].id)
    ensures var prev := PatchedOtuSequences(otus[..i], dataType);
      prev.outcome.Exhausted? ==>
        PatchedOtuSequences(otus[..i + 1], dataType) ==
          (match SelectSequences(otus[i], dataType)
           case None => StreamResult(prev.emitted, NoDefaultIsolate(otus[i].id), i + 1)
           case Some(q) => StreamResult(prev.emitted + q, Exhausted, i + 1))
  {
    assert otus[..i + 1][..i] == otus[..i];
  }

  /** Once the stream has failed on a prefix, the rest of the OTUs change nothing. */
  lemma {:induction false} FailureIsFinal(otus: seq<Otu>, dataType: string, n: nat)
    requires n <= |otus|
    requires PatchedOtuSequences(otus[..n], dataType).outcome.NoDefaultIsolate?
    ensures PatchedOtuSequences(otus, dataType) == PatchedOtuSequences(otus[..n], dataType)
  {
    if n < |otus| {
      var init := otus[..|otus| - 1];
      assert init[..n] == otus[..n];
      FailureIsFinal(init, dataType, n);
    } else {
      assert otus[..n] == otus;
    }
  }

  /** Every sequence of every OTU, OTU by OTU: the reference for a barcode stream. */
  function AllSequences(otus: seq<Otu>): seq<Sequence> {
    if otus == [] then []
    else AllSequences(otus[..|otus| - 1]) + ExtractSequences(otus[|otus| - 1])
  }

  /** The default-isolate sequences of every OTU, OTU by OTU (an OTU without one adds nothing). */
  function DefaultSequencesOf(otus: seq<Otu>): seq<Sequence> {
    if otus == [] then []
    else DefaultSequencesOf(otus[..|otus| - 1]) + ExtractDefaultSequences(otus[|otus| - 1]).GetOr([])
  }

  /** A barcode stream emits every sequence of every OTU, in order, and never fails. */
  lemma {:induction false} BarcodeEmitsEverything(otus: seq<Otu>)
    ensures PatchedOtuSequences(otus, Barcode) == StreamResult(AllSequences(otus), Exhausted, |otus|)
  {
    if otus != [] {
      BarcodeEmitsEverything(otus[..|otus| - 1]);
    }
  }

  /**
   * Any other data type: while every OTU has a default isolate, the stream emits exactly the
   * sequences of each OTU's default isolate, in order, and visits every OTU.
   */
  lemma {:induction false} DefaultIsolatesEmitted(otus: seq<Otu>, dataType: string)
    requires dataType != Barcode
    requires forall i :: 0 <= i < |otus| ==> ExtractDefaultSequences(otus[i]).Some?
    ensures PatchedOtuSequences(otus, dataType) == StreamResult(DefaultSequencesOf(otus), Exhausted, |otus|)
  {
    if otus != [] {
      var init := otus[..|otus| - 1];
      assert forall i :: 0 <= i < |init| ==> init[i] == otus[i];
      DefaultIsolatesEmitted(init, dataType);
    }
  }

  /**
   * Any other data type: the first OTU without a default isolate ends the stream with a
   * failure naming it. It is not skipped: nothing after it is emitted or visited, while its
   * own sequences are recorded in the ownership map (it counts as visited).
   */
  lemma {:induction false} MissingDefaultFails(otus: seq<Otu>, dataType: string, k: nat)
    requires dataType != Barcode
    requires k < |otus| && ExtractDefaultSequences(otus[k]).None?
    requires forall i :: 0 <= i < k ==> ExtractDefaultSequences(otus[i]).Some?
    ensures PatchedOtuSequences(otus, dataType)
      == StreamResult(DefaultSequencesOf(otus[..k]), NoDefaultIsolate(otus[k].id), k + 1)
  {
    var pre := otus[..k + 1];
    assert pre[..k] == otus[..k];
    assert forall i :: 0 <= i < k ==> otus[..k][i] == otus[i];
    DefaultIsolatesEmitted(otus[..k], dataType);
    FailureIsFinal(otus, dataType, k + 1);
  }

  /** The default isolate's sequences are among the OTU's sequences. */
  lemma DefaultWithinAll(isolates: seq<Isolate>)
    requires FirstDefault(isolates).Some?
    ensures forall s :: s in FirstDefault(isolates).value ==> s in IsolateSequences(isolates)
  {
    var k := FirstDefaultIndex(isolates);
    forall s | s in FirstDefault(isolates).value
      ensures s in IsolateSequences(isolates)
    {
      var j :| 0 <= j < |isolates[k].sequences| && isolates[k].sequences[j] == s;
      ExtractSequencesPosition(isolates, k, j);
    }
  }

  /**
   * Whatever the data type, every emitted sequence has an entry in the ownership map once
   * the stream is consumed (whether it ended normally or failed).
   */
  lemma {:induction false} EmittedAreOwned(m: map<string, string>, otus: seq<Otu>, dataType: string)
    ensures var x := PatchedOtuSequences(otus, dataType);
      forall s :: s in x.emitted ==> s.id in RecordOwners(m, otus[..x.visited])
  {
    if otus != [] {
      var n := |otus|;
      var init := otus[..n - 1];
      var last := otus[n - 1];
      var prev := PatchedOtuSequences(init, dataType);
      var x := PatchedOtuSequences(otus, dataType);
      EmittedAreOwned(m, init, dataType);
      if prev.outcome.NoDefaultIsolate? {
        assert x == prev;
        assert init[..prev.visited] == otus[..prev.visited];
      } else {
        var before := RecordOwners(m, init);
        assert init[..prev.visited] == init;
        var sel := SelectSequences(last, dataType);
        var added := if sel.Some? then sel.value else [];
        assert x.visited == n && x.emitted == prev.emitted + added;
        assert otus[..n] == otus;
        assert RecordOwners(m, otus) == Assign(before, ExtractSequences(last), last.id);
        if sel.Some? && dataType != Barcode {
          DefaultWithinAll(last.isolates);
        }
        OwnedAfterAssign(before, prev.emitted, added, ExtractSequences(last), last.id);
      }
    }
  }

  /** Recording an OTU keeps the earlier owners and adds one for each of its sequences. */
  lemma OwnedAfterAssign(before: map<string, string>, earlier: seq<Sequence>, added: seq<Sequence>,
                         sequences: seq<Sequence>, owner: string)
    requires forall s :: s in earlier ==> s.id in before
    requires forall s :: s in added ==> s in sequences
    ensures forall s :: s in earlier + added ==> s.id in Assign(before, sequences, owner)
  {
    AssignKeys(before, sequences, owner);
  }

  /** The keys `Assign` leaves: the old ones and the identifiers of the assigned sequences. */
  lemma {:induction false} AssignKeys(m: map<string, string>, sequences: seq<Sequence>, owner: string)
    ensures Assign(m, sequences, owner).Keys == m.Keys + Ids(sequences)
  {
    if sequences != [] {
      var init := sequences[..|sequences| - 1];
      var last := sequences[|sequences| - 1];
      assert sequences == init + [last];
      assert Ids(sequences) == Ids(init) + {last.id};
      AssignKeys(m, init, owner);
    }
  }

  /** Identifiers of a list whose identifiers are pairwise distinct are as many as its elements. */
  lemma {:induction false} DistinctIdsCount(sequences: seq<Sequence>)
    requires forall i, j :: 0 <= i < j < |sequences| ==> sequences[i].id != sequences[j].id
    ensures |Ids(sequences)| == |sequences|
  {
    if sequences != [] {
      var init := sequences[..|sequences| - 1];
      var last := sequences[|sequences| - 1];
      assert sequences == init + [last];
      assert Ids(sequences) == Ids(init) + {last.id};
      assert last.id !in Ids(init);
      DistinctIdsCount(init);
    }
  }

  /**
   * The ownership map is at least as large as the emitted stream when the emitted sequences
   * have distinct identifiers: it records every visited sequence, emitted or not.
   */
  lemma OwnersCoverEmitted(m: map<string, string>, otus: seq<Otu>, dataType: string)
    requires var e := PatchedOtuSequences(otus, dataType).emitted;
      forall i, j :: 0 <= i < j < |e| ==> e[i].id != e[j].id
    ensures var x := PatchedOtuSequences(otus, dataType);
      |x.emitted| <= |RecordOwners(m, otus[..x.visited])|
  {
    var x := PatchedOtuSequences(otus, dataType);
    var owners := RecordOwners(m, otus[..x.visited]);
    EmittedAreOwned(m, otus, dataType);
    DistinctIdsCount(x.emitted);
    SubsetSize(Ids(x.emitted), owners.Keys);
  }

  lemma {:induction false} SubsetSize(a: set<string>, b: set<string>)
    requires a <= b
    ensures |a| <= |b|
  {
    if a != {} {
      var y :| y in a;
      SubsetSize(a - {y}, b - {y});
    }
  }

  /** A sequence document holding only `_id` and `sequence`. */
  function Bare(id: string, text: string): Sequence {
    Sequence(id, None, None, None, text, None, None, None)
  }

  /** Two OTUs: `foo` with a default and a non-default isolate, `bar` with one default isolate. */
  function ExampleOtus(): seq<Otu> {
    [ Otu("foo", None, None, None,
          [ Isolate(Some(Str("foo_1")), None, None, true,
                    [Bare("1", "AGAGGATAGAGACACA"), Bare("2", "GGGTAGTCGATCTGGC")]),
            Isolate(Some(Str("foo_2")), None, None, false,
                    [Bare("3", "TTTAGAGTTGGATTAC"), Bare("4", "AAAGGAGAGAGAAACC")]) ],
          None),
      Otu("bar", None, None, None,
          [ Isolate(Some(Str("bar_1")), None, None, true,
                    [Bare("5", "TTTGAGCCACACCCCC"), Bare("6", "GCCCACCCATTAGAAC")]) ],
          None) ]
  }

  /** The map both data types leave behind: all six sequences, each with its OTU. */
  function ExampleOwners(): map<string, string> {
    map["1" := "foo", "2" := "foo", "3" := "foo", "4" := "foo", "5" := "bar", "6" := "bar"]
  }

  lemma ExampleOwnersComputed()
    ensures RecordOwners(map[], ExampleOtus()) == ExampleOwners()
  {
    var otus := ExampleOtus();
    var foo := otus[0].isolates[0].sequences + otus[0].isolates[1].sequences;
    var bar := otus[1].isolates[0].sequences;
    assert otus[0].isolates[..1] == [otus[0].isolates[0]];
    assert ExtractSequences(otus[0]) == foo;
    assert ExtractSequences(otus[1]) == bar;
    assert otus[..1] == [otus[0]];
    assert RecordOwners(map[], [otus[0]]) == Assign(map[], foo, "foo");
    assert RecordOwners(map[], otus) == Assign(Assign(map[], foo, "foo"), bar, "bar");
    AssignSnoc(map[], foo[..3], foo[3], "foo");
    AssignSnoc(map[], foo[..2], foo[2], "foo");
    AssignSnoc(map[], foo[..1], foo[1], "foo");
    assert foo[..3] + [foo[3]] == foo;
    assert foo[..2] + [foo[2]] == foo[..3];
    assert foo[..1] + [foo[1]] == foo[..2];
    assert Assign(map[], foo, "foo") == map["1" := "foo", "2" := "foo", "3" := "foo", "4" := "foo"];
    var m4 := Assign(map[], foo, "foo");
    AssignSnoc(m4, bar[..1], bar[1], "bar");
    assert bar[..1] + [bar[1]] == bar;
  }

  /** A genome reference emits only the default isolates' sequences, yet maps all six. */
  lemma GenomeExample()
    ensures var x := PatchedOtuSequences(ExampleOtus(), "genome");
      && x.outcome == Exhausted && x.visited == 2
      && x.emitted == [Bare("1", "AGAGGATAGAGACACA"), Bare("2", "GGGTAGTCGATCTGGC"),
                       Bare("5", "TTTGAGCCACACCCCC"), Bare("6", "GCCCACCCATTAGAAC")]
      && RecordOwners(map[], ExampleOtus()[..x.visited]) == ExampleOwners()
  {
    var otus := ExampleOtus();
    assert otus[..2] == otus;
    assert otus[..1] == [otus[0]];
    assert otus[0].isolates[..1] == [otus[0].isolates[0]];
    assert FirstDefault(otus[0].isolates) == Some(otus[0].isolates[0].sequences);
    assert FirstDefault(otus[1].isolates) == Some(otus[1].isolates[0].sequences);
    ExampleOwnersComputed();
  }

  /** A barcode reference emits all six sequences, in order, and maps all six. */
  lemma BarcodeExample()
    ensures var x := PatchedOtuSequences(ExampleOtus(), Barcode);
      && x.outcome == Exhausted && x.visited == 2
      && x.emitted == [Bare("1", "AGAGGATAGAGACACA"), Bare("2", "GGGTAGTCGATCTGGC"),
                       Bare("3", "TTTAGAGTTGGATTAC"), Bare("4", "AAAGGAGAGAGAAACC"),
                       Bare("5", "TTTGAGCCACACCCCC"), Bare("6", "GCCCACCCATTAGAAC")]
      && RecordOwners(map[], ExampleOtus()[..x.visited]) == ExampleOwners()
  {
    var otus := ExampleOtus();
    assert otus[..2] == otus;
    assert otus[..1] == [otus[0]];
    assert otus[0].isolates[..1] == [otus[0].isolates[0]];
    ExampleOwnersComputed();
  }
}
