# Index-build utilities of the Virtool build-index workflow

This project models the document-handling core of the Virtool workflow that builds a
reference index (`utils.py`). A reference holds OTUs (operational taxonomic units). Each
OTU holds isolates, and each isolate holds nucleotide sequences. The core has three jobs:

- **Sequence selection** (`Extraction`). It walks the patched OTUs and chooses the
  sequences that go into the index. For a `barcode` reference that is every sequence;
  for any other data type it is the sequences of each OTU's first default isolate. While
  walking, it fills the caller's sequence-to-OTU map with every sequence of every visited
  OTU. The caller's dictionary is the class `SequenceOtuMap`. The method
  `GetSequencesFromPatchedOtus` updates it in place and is proved against the functions
  `PatchedOtuSequences` and `RecordOwners`.
- **The FASTA text** (`Fasta`). The file holds one record per sequence: a line `>` plus
  the sequence `_id`, then a line with the sequence. The method
  `WriteSequencesToFile` builds the text record by record. A reader `ParseFasta` is
  defined and proved to invert it.
- **The export** (`Export`). Each OTU is cut down to fixed key lists. An isolate or
  sequence that lacks a required key fails with `KeyError`. Before cleaning, the export
  overwrites the `_id` of each OTU and each sequence with its `remote.id` when it has one.
  It works in place on an `array<Otu>`.

`Documents` holds the records (`Otu`, `Isolate`, `Sequence`) and the three key-list
constants. It also reads each record key by key, so that a dictionary lookup `doc[key]`
(which can fail) and `doc.get(key)` can be stated for any key list. `Wrappers` holds
`Option` and `Result`.

An OTU without a default isolate is not skipped. `extract_default_sequences` returns
`None` for it, and iterating over `None` at utils.py:83 raises, so the whole sequence
stream fails at that OTU. The model records this as outcome `NoDefaultIsolate`. That OTU's
own sequences were already written to the map before the failure (utils.py:74-77), so it
counts as visited.

## Model

| member | source | states |
|---|---|---|
| Export.DefaultKeySets | utils.py:7-13 | With the default key lists, an OTU carries exactly `name`, `abbreviation`, `schema` and `isolates`, and `_id` is not among the default sequence keys. |
| Extraction.FirstDefault | utils.py:16-23 | The result is absent exactly when no isolate is flagged default. |
| Extraction.FirstDefaultWins | utils.py:21-23 | When isolate `k` is the first default one, its sequences are returned, whatever later isolates say. |
| Extraction.FirstDefaultIndex | utils.py:21-23 | A present result is the sequence list of a default isolate, and every isolate before it is not default. |
| Extraction.IsolateSequences | utils.py:26-34 | The output has as many sequences as the isolates hold together. |
| Extraction.ExtractSequencesPosition | utils.py:32-34 | Sequence `j` of isolate `i` is emitted at offset (sequences of isolates before `i`) + `j`. |
| Extraction.ExtractSequencesOrigin | utils.py:32-34 | Every emitted position is some sequence `j` of some isolate `i`, at that same offset. So the output is each isolate's sequences in order, each exactly once. |
| Extraction.PatchedOtuSequences | utils.py:56-84 | Consuming the stream visits every OTU unless it fails. A failure happens only for a non-barcode type, names the last visited OTU, and that OTU has no default isolate. |
| Extraction.AssignAt | utils.py:75-77 | After writing the owner for each sequence of a list, a key is present iff it was before or is one of the list's identifiers; listed keys map to the owner and other keys keep their value. |
| Extraction.RecordOwnersKeys | utils.py:71-77 | After visiting OTUs, a key is in the map iff it was there before or is the `_id` of a sequence of a visited OTU, default isolate or not. |
| Extraction.RecordOwnersLastWins | utils.py:71-77 | A sequence `_id` maps to the last visited OTU holding a sequence with that `_id`. |
| Extraction.RecordOwnersKeeps | utils.py:71-77 | Keys that no visited OTU holds keep the value the caller's map had. |
| Extraction.SequenceOtuMap.constructor | tests/test_utils.py:55 | The caller's map starts empty. |
| Extraction.GetSequencesFromPatchedOtus | utils.py:56-84 | The method's emitted sequences and outcome are those of `PatchedOtuSequences`. The caller's map becomes its old contents plus the owners of the visited OTUs, in visiting order. |
| Extraction.FailureIsFinal | utils.py:83-84 | Once the stream has failed on a prefix, the remaining OTUs change nothing: nothing more is emitted or visited. |
| Extraction.BarcodeEmitsEverything | utils.py:79-81 | A barcode stream emits every sequence of every OTU, OTU by OTU and in order, visits all OTUs and never fails. |
| Extraction.DefaultIsolatesEmitted | utils.py:82-84 | For any other data type, when every OTU has a default isolate, the stream emits exactly each OTU's default-isolate sequences, in order, and visits all OTUs. |
| Extraction.MissingDefaultFails | utils.py:82-84 | For any other data type, the first OTU `k` without a default isolate ends the stream. Only the earlier OTUs' default sequences are emitted, the failure names OTU `k`, and `k + 1` OTUs are visited. |
| Extraction.DefaultWithinAll | utils.py:21-34 | The default isolate's sequences are among the OTU's sequences. |
| Extraction.EmittedAreOwned | utils.py:71-84 | Every emitted sequence has an entry in the map once the stream has been consumed, whether it ended normally or failed. |
| Extraction.AssignKeys | utils.py:75-77 | After writing one OTU's owners, the map's keys are the old keys plus that OTU's sequence identifiers. |
| Extraction.OwnersCoverEmitted | utils.py:71-84 | When emitted identifiers are distinct, the map has at least as many entries as sequences were emitted. |
| Extraction.ExampleOwnersComputed | tests/test_utils.py:9-46 | For the test's two OTUs, `foo` and `bar`, the map records all six sequences, 1–4 to `foo` and 5–6 to `bar`. |
| Extraction.GenomeExample | tests/test_utils.py:49-61 | For a `genome` reference, the test OTUs emit sequences 1, 2, 5 and 6, visit both OTUs, and leave all six in the map. |
| Extraction.BarcodeExample | tests/test_utils.py:49-61 | For a `barcode` reference, the test OTUs emit sequences 1 to 6 in order and leave all six in the map. |
| Fasta.WriteSequencesToFile | utils.py:37-53 | The written text is the concatenation, in order, of one record `>` + `_id` + newline + sequence + newline per sequence. |
| Fasta.NextLine | utils.py:52 | Splitting after the first newline fails iff there is none; otherwise the text is the line, a newline and the rest, and the line holds no newline. |
| Fasta.ParseFastaRecord | utils.py:52 | A record in front of any text reads back as its identifier and sequence, followed by whatever the text reads as. |
| Fasta.ParseFastaRoundTrip | utils.py:47-53 | Reading the written file back gives every (`_id`, `sequence`) pair in order, provided no identifier or sequence holds a newline. |
| Fasta.TwoLinesPerRecord | utils.py:52 | Under the same proviso, the file holds exactly two newlines per sequence. |
| Export.Pick | utils.py:122 | `{key: doc[key] for key in keys}` succeeds iff the document has every key. It then holds exactly those keys with the document's values; otherwise it fails with the first key, in list order, that the document lacks. |
| Export.CleanSequence | utils.py:125-132 | A cleaned sequence succeeds iff every requested key is present. Its keys are the requested ones, plus `segment` and `target` when present, and each value is the sequence's own. A failure names a missing requested key. |
| Export.CleanEach | utils.py:120-136 | Cleaning a list succeeds iff every element does. It keeps the count and the order, each element is that element's cleaned document, and a failure is the failure of the first element that fails, every element before it cleaning successfully. |
| Export.CleanIsolate | utils.py:121-134 | A cleaned isolate succeeds iff it has all isolate keys and every sequence cleans. Its keys are the isolate keys plus `sequences`, the values are copied, and the sequences are cleaned in order. A failure names a missing isolate key or comes from a sequence. |
| Export.PrepareExportableOtu | utils.py:111-138 | An absent or empty key list falls back to the default. The OTU keys never fail and read `None` when absent, and the cleaned OTU holds exactly those keys plus `isolates` and `schema`. `schema` defaults to the empty list. Isolates are cleaned in order, and the OTU fails iff some isolate fails, with that isolate's error. |
| Export.ExportableOtuSucceeds | utils.py:111-138 | Cleaning an OTU fails exactly when an isolate lacks an isolate key or a sequence lacks a requested sequence key. |
| Export.ExportedSequenceAt | utils.py:120-136 | In a cleaned OTU, isolate `i` and sequence `j` of it sit at the same positions as in the source OTU, and each is the cleaned form of its source. |
| Export.DefaultKeysOmitId | utils.py:113-126 | With no key lists, any OTU that cleans has exactly the keys `name`, `abbreviation`, `schema` and `isolates`, and none of its cleaned sequences carries `_id`. |
| Export.SequencesWithRemoteIds | utils.py:100-104 | Every sequence, in order, gets its `remote.id` identifier, and nothing else changes. |
| Export.IsolatesWithRemoteIds | utils.py:99-104 | Every isolate keeps everything but its sequences, which are renamed as above. |
| Export.WithRemoteIdsIdempotent | utils.py:93-104 | Overwriting identifiers with `remote.id` twice gives the same OTU as once, for the OTU and every sequence, because the overwrite never changes `remote`. |
| Export.ExportedOtuId | utils.py:90-106 | An exported OTU carries `remote.id` as its `_id` when it has one, otherwise its own `_id`. |
| Export.ExportedSequenceId | utils.py:91-106 | Every exported sequence carries `remote.id` as its `_id` when it has one, otherwise its own. |
| Export.ExportEachShape | utils.py:93-108 | The export succeeds iff every OTU exports. On success it gives one document per OTU, in input order; a failure is some OTU's error. |
| Export.ExportOtusShape | utils.py:87-108 | The same shape holds for the export's own per-OTU step (remote ids substituted, then cleaned with `_id` kept): success iff every OTU exports, one document per OTU in order, and a failure is some OTU's error. |
| Export.ExportFailureIsFinal | utils.py:93-106 | The first failing OTU ends the export. Its error is the result, and exactly the OTUs up to and including it are reached. |
| Export.ExportReachAll | utils.py:93-108 | A successful export reaches every OTU. |
| Export.PrepareExportOtus | utils.py:87-108 | The result is the export of the OTUs as passed in. Reached OTUs, up to and including a failing one, are overwritten in place with their remote-id form; the rest are unchanged. |

## Left out

- Writing the FASTA file: the file, its path and the asynchronous writes are left out. `WriteSequencesToFile` returns the text that would be written.
- `compress_json_with_gzip` (utils.py:141-146): it is byte-level I/O through gzip.
- `RIGHTS` (utils.py:11): no modelled operation uses it.
- The workflow steps, fixtures and the external index builder: they are not part of this model, and the core only supplies them with data.
- The generator is modelled fully consumed. A caller that stops early would see a prefix of the emitted list and a shorter map; the model does not cover that laziness.
- A `KeyError` on a field the code reads unconditionally is not modelled: `_id`, `isolates`, `sequences` and `sequence` are always present in the records, so no read of those fields can fail in the model.
- Python truthiness of `isolate["default"]`: the flag is a boolean that every isolate carries. An isolate document without `default` is not modelled.
- Document fields other than those named in `Documents` read as absent. A key list naming any other key reads `None` for an OTU and fails for an isolate or sequence.
- A `remote` field that is present but `null` raises `TypeError` in utils.py, which the `KeyError` handler does not catch. The model has only absent `remote`, and `remote` with or without `id`.
- PrepareExportOtus: the Python code mutates the nested dictionaries shared with the caller. The model replaces each array element with its renamed copy, so aliasing of isolates or sequences shared between OTUs is not captured; `Export.WithRemoteIdsIdempotent` shows that a document overwritten a second time does not change again.
- Fasta.ParseFastaRoundTrip: this holds only when identifiers and sequences contain no newline, as the FASTA headers of utils.py:52 assume. With a newline, utils.py writes a file that does not parse back.
