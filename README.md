# Threaded document processor: output sink and resumable per-partition scan

This project models the two sequential kernels of `ThreadedDocumentProcessor`. The
processor is a small framework that splits a MongoDB collection across worker
threads, passes each document to a user-supplied `processDocument` transform, and
appends the returned records to a shared `output.json` artifact.

- **The output sink** (`framing.dfy`, `processor.dfy`). The class
  `ThreadedDocumentProcessor` keeps the fields the source updates in place:
  - the one-way `firstWrite` flag;
  - the fixed `scriptWasRestarted` flag;
  - the append-only text of the output artifact.

  `Offer` writes one serialised record. It writes the opening bracket `[\n\t` for
  the first record of a fresh run and the separator `,\n\t` before every other
  record. `Finalize` appends the closing `\n]` once all threads have joined.

  The module `Framing` gives a reference definition of a finished artifact: `[`,
  then the records on indented lines joined by commas, then `\n]`. Its lemmas show:
  - a fresh run that offers at least one record and is then finalised produces
    exactly that array;
  - a restarted run continues the array of an earlier run, with no second opening
    bracket;
  - a fresh run that offers nothing leaves `\n]`, which is not an array.
- **The per-partition scan** (`scanning.dfy`, `processor.dfy`). A thread reads its
  checkpoint, skips that many documents, and numbers every further document the
  cursor yields. For each document its partition owns, it:
  1. runs the transform;
  2. offers the record when the transform returned one;
  3. counts the document;
  4. writes a progress line `(processed, expected, document number)`.

  When the cursor raises, the thread re-reads its checkpoint and scans again.
  `Scanning` specifies this as functions:
  - `Visit` handles one document;
  - `Scan` is one uninterrupted attempt;
  - `Run` is a whole call, with its attempts and faults.

  It also gives a reference (`Owned`, `ProgressFrom`, `EmittedFor`): the owned
  document numbers in increasing order, one progress line each, and the records
  of those whose transform returned one.

  The main theorem (`PartitionOutcome`) says that `Run` equals this reference
  whatever faults occur. So, on a collection that does not change during the
  call, a retry never counts or writes an owned document twice, and never skips
  one. The method `IterateDocuments` implements the retry as an outer loop,
  following the recursion of the source. `IterateDocuments` is proved to reach
  exactly that state, for both the counters and the output artifact.

Records are serialised by a parameter `dumps`. The scan is generic in the
serialised form; the processor instantiates it with text.

## Model

| member | source | states |
|---|---|---|
| Framing.Prefix | ThreadedDocumentProcessor.py:71-76 | the delimiter is three characters: `[` for the opening record and `,` otherwise, followed by a newline and a tab |
| Framing.Frame | ThreadedDocumentProcessor.py:69-77 | the text that offering the records appends is empty exactly when no record is offered, and otherwise begins with `[` for a fresh run's opening and with `,` after it |
| Framing.FrameSnoc | ThreadedDocumentProcessor.py:69-77 | offering one more record appends exactly its delimiter and the record; the bracket is written only for the first record of a fresh run |
| Framing.ContinueArray | ThreadedDocumentProcessor.py:75-77 | records offered after the bracket is out extend the open array by one comma-separated, indented element each |
| Framing.FreshArtifact | ThreadedDocumentProcessor.py:71-77 | a fresh run that offers at least one record, followed by the closing write, yields exactly the JSON array of those records in offer order |
| Framing.ResumedArtifact | ThreadedDocumentProcessor.py:71-77 | a restarted run appends to an earlier run's open array; once closed, the artifact is the array of the earlier records followed by the new ones |
| Framing.EmptyRunIsNotAnArray | ThreadedDocumentProcessor.py:43-44 | a fresh run that offers no record leaves only the closing `\n]`, which differs from the empty array |
| Framing.RestartAfterEmptyRunIsNotAnArray | ThreadedDocumentProcessor.py:71-77 | a restarted run that follows an earlier run which wrote no record begins its text with `,`; once finalised it equals no array of records |
| Scanning.Written | ThreadedDocumentProcessor.py:67-68 | a processed document contributes at most one record: exactly when the transform returned a (truthy) record, and then its serialisation |
| Scanning.Visit | ThreadedDocumentProcessor.py:62-83 | every yielded document advances the document number by one; the processed count rises by one exactly when the partition owns the document; an owned document appends its progress line `(count, expected, number)` and its record, if any; unowned documents change nothing else |
| Scanning.Scan | ThreadedDocumentProcessor.py:59-63 | an attempt that starts after document n and runs up to document m ends at number max(n, m) and never lowers the processed count |
| Scanning.Run | ThreadedDocumentProcessor.py:85-93 | a call retries after every fault until an attempt exhausts the cursor, so it always ends with the document number at or past the end of the collection |
| Scanning.Owned | ThreadedDocumentProcessor.py:65 | every listed document number lies in the scanned range and is owned by the partition |
| Scanning.OwnedIsIncreasing | ThreadedDocumentProcessor.py:62-65 | owned documents are met in strictly increasing document-number order |
| Scanning.OwnedIsComplete | ThreadedDocumentProcessor.py:65 | every owned document number in the scanned range is listed |
| Scanning.ScanCountsOwned | ThreadedDocumentProcessor.py:82 | an attempt's processed count rises by exactly the number of owned documents it passes |
| Scanning.ScanLogsOwned | ThreadedDocumentProcessor.py:82-83 | an attempt writes exactly one progress line per owned document, in order, carrying consecutive processed counts, the expected total and the document number |
| Scanning.ScanEmitsOwned | ThreadedDocumentProcessor.py:66-77 | an attempt offers exactly the records of the owned documents whose transform returned one, in document order; a falsy or raising transform offers nothing |
| Scanning.ScanMatchesReference | ThreadedDocumentProcessor.py:62-83 | an attempt equals the reference definition: final number, count, progress lines and offered records |
| Scanning.ScanCompose | ThreadedDocumentProcessor.py:62-63 | scanning on from the end of a shorter attempt is the same as one longer attempt |
| Scanning.ScanKeepsConsistent | ThreadedDocumentProcessor.py:82-83 | after every step the last progress line holds the current processed count, and no owned document lies between it and the current position |
| Scanning.RescanFromCheckpoint | ThreadedDocumentProcessor.py:56-59 | rescanning from the re-read checkpoint reproduces exactly the state at the fault, so nothing already counted is counted again |
| Scanning.RunResumesWithoutRecount | ThreadedDocumentProcessor.py:85-93 | on an unchanged collection, whatever faults occur and wherever they strike, a call ends in the state of a single uninterrupted attempt |
| Scanning.FaultsDoNotChangeOutcome | ThreadedDocumentProcessor.py:85-93 | a call's final counters, progress lines and offered records do not depend on the cursor faults it met |
| Scanning.PartitionOutcome | ThreadedDocumentProcessor.py:47-95 | on an unchanged collection, a call from a checkpoint ends at number max(checkpoint, document count); every owned document after the checkpoint is processed exactly once, in increasing order, with its progress line and (if returned) its record |
| Scanning.ProgressLogShape | ThreadedDocumentProcessor.py:82-83 | final count = starting count + number of progress lines; every line names an owned document after the checkpoint, with consecutive processed counts; lines are in strictly increasing document order; every owned document has a line |
| Scanning.BookkeepingIgnoresTransform | ThreadedDocumentProcessor.py:66-83 | the final document number, count and progress lines are the same for any transform, serialiser and fault sequence |
| Processor.OfferExtendsFrame | ThreadedDocumentProcessor.py:70-77 | the delimiter the flags select, followed by the record, extends the text of the records offered so far by exactly that record |
| Processor.ThreadedDocumentProcessor.constructor | ThreadedDocumentProcessor.py:13-16 | the restart flag is as given, `firstWrite` starts true, and the artifact keeps its existing contents |
| Processor.ThreadedDocumentProcessor.Offer | ThreadedDocumentProcessor.py:69-77 | first record of a fresh run: appends `[\n\t` and the record, then clears `firstWrite`; otherwise appends `,\n\t` and the record and leaves the flag unchanged |
| Processor.ThreadedDocumentProcessor.Finalize | ThreadedDocumentProcessor.py:43-44 | appends exactly `\n]` and leaves the flag unchanged |
| Processor.ThreadedDocumentProcessor.IterateDocuments | ThreadedDocumentProcessor.py:47-95 | returns the final document number, count and progress lines of `Run`, and leaves the artifact extended by exactly the offered records; equivalently, those of the owned documents after the checkpoint, in order |
| Processor.ThreadedDocumentProcessor.Attempt | ThreadedDocumentProcessor.py:56-93 | one attempt from the re-read checkpoint: it either ends the call in `Run`'s final state, or meets the next fault and leaves a state from which the remaining faults reach the same result |
| Processor.ThreadedDocumentProcessor.ScanCursor | ThreadedDocumentProcessor.py:59-83 | handling the documents after a skip equals `Scan` up to the end of the collection or up to the fault; reports whether the cursor was exhausted; the artifact gains exactly the records offered |
| Processor.ThreadedDocumentProcessor.HandleDocument | ThreadedDocumentProcessor.py:62-83 | handling one yielded document equals `Visit`, and the artifact gains exactly the record offered, if any |

## Left out

- Threads, the lock and `join` are not modelled. Each partition is modelled on its own. The lock makes each pair of writes in `Offer` atomic, so the artifact is some interleaving of whole offers. Which interleaving occurs is not modelled.
- MongoDB (`count_documents`, `find`, `skip`, the cursor and `close`) is not modelled as such. The collection is a sequence `docs`; `skip(n)` is the suffix after position `n`, or empty past the end. The document count enters only through `expected`.
- The functions of `utils` are not part of this model. They appear as parameters:
  - the membership predicate `owns`;
  - the expected count `expected`;
  - the starting checkpoint `base`.
- Reading a checkpoint back is modelled as returning the last progress line of the call, or `base` when the call has written none. Progress lines are modelled as a sequence of `(processed, expected, document number)` values, not as file text with timestamps.
- The following effects are not modelled: file paths, the `Started` marker, error logging, the completion `print`, and `sleep(5)`.
- `json.dumps` is a total parameter `dumps`, and writing to a file never fails. An exception raised between the two writes of `Offer` (a failing `dumps` after the delimiter) is not modelled. Neither is an exception from writing a progress line.
- Cursor faults are modelled as a finite sequence: attempt i raises after yielding `faults[i].after` documents. Unbounded retrying is out of scope. `CursorNotFound` and other exceptions lead to the same state. The second `close` after a retry returns has no effect here.
- `processDocument` is a parameter whose result is `Returned`, `Falsy` or `Raised`. `Falsy` stands for every falsy Python value the source does not write, such as `None` or an empty dictionary.
- The collection is assumed unchanged during a call and across restarts. Every attempt reads the same sequence `docs`. Each retry re-issues `find(...).skip(n)` against the live collection, and documents inserted or deleted at or before the checkpoint between attempts would make the source skip documents or process them twice. The no-recount results hold only for an unchanged collection.
- Termination of the process between writing a record and writing its progress line is not modelled. After such a crash, the artifact holds a record that the checkpoint does not cover, and a restart offers it again. The restart lemmas assume the earlier artifact and the progress file agree.
- The recursion depth of the retry is not modelled. The source retries by recursion, so a call that meets about a thousand faults ends with Python's `RecursionError`. The model lets any finite number of faults be retried.
- Side effects of the transform are not modelled. The source passes the processor itself to `processDocument`, which could change `first_write` or write to the output file. The model's transform is a pure function of the document.
- Scanning.BookkeepingIgnoresTransform: states equality of the counters and progress lines only. The offered records depend on the transform.
- Framing.ResumedArtifact: covers only a restart after an earlier run that wrote at least one record. After an earlier run that wrote none, a restarted run starts with a separator instead of a bracket, and the resulting artifact is not an array (Framing.RestartAfterEmptyRunIsNotAnArray).
