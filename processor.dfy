/** The document processor's mutable state and its two sequential kernels: the
    output sink (one-way `firstWrite` flag, fixed restart flag, append-only
    output text) and the per-partition scan with its checkpoint bookkeeping. */
module Processor {
  import opened Framing
  import opened Scanning

  /** One more offered record extends the framed records by exactly that record,
      whichever delimiter the flags select. */
  lemma OfferExtendsFrame(prior: string, priorFirstWrite: bool, restarted: bool, records: seq<string>, json: string,
                          output: string, firstWrite: bool)
    requires output == prior + Frame(priorFirstWrite && !restarted, records)
    requires firstWrite == (priorFirstWrite && (restarted || records == []))
    ensures output + (if firstWrite && !restarted then "[\n\t" else ",\n\t") + json
            == prior + Frame(priorFirstWrite && !restarted, records + [json])
  {
    FrameSnoc(priorFirstWrite && !restarted, records, json);
  }

  class ThreadedDocumentProcessor {
    /** Whether this run resumes an earlier run whose artifact is still open. */
    const scriptWasRestarted: bool
    /** True until this run has written the opening bracket. */
    var firstWrite: bool
    /** The contents of the output artifact. */
    var output: string

    /** A processor over an output artifact that already holds `existingOutput`
        (the file is only ever appended to). */
    constructor (restart: bool, existingOutput: string)
      ensures scriptWasRestarted == restart && firstWrite && output == existingOutput
    {
      scriptWasRestarted := restart;
      firstWrite := true;
      output := existingOutput;
    }

    /** Writes one serialised record. The first record of a fresh run opens the
        array and clears `firstWrite`; every other record is preceded by a
        separator and leaves the flag as it was. */
    method Offer(json: string)
      modifies this
      ensures old(firstWrite) && !scriptWasRestarted ==> output == old(output) + "[\n\t" + json && !firstWrite
      ensures !(old(firstWrite) && !scriptWasRestarted) ==> output == old(output) + ",\n\t" + json && firstWrite == old(firstWrite)
    {
      if firstWrite && !scriptWasRestarted {
        output := output + "[\n\t";
        output := output + json;
        firstWrite := false;
      } else {
        output := output + ",\n\t";
        output := output + json;
      }
    }

    /** Closes the artifact once every partition has finished. */
    method Finalize()
      modifies this
      ensures output == old(output) + "\n]" && firstWrite == old(firstWrite)
    {
      output := output + "\n]";
    }

    /** Since the artifact held `prior` with the flag at `priorFirstWrite`,
        exactly `records` have been offered, in this order. */
    ghost predicate WroteSince(prior: string, priorFirstWrite: bool, records: seq<string>)
      reads this
    {
      && output == prior + Frame(priorFirstWrite && !scriptWasRestarted, records)
      && firstWrite == (priorFirstWrite && (scriptWasRestarted || records == []))
    }

    /** Scans the documents for one partition, starting from checkpoint `base`.
        Attempt i of the scan raises faults[i] (unless the cursor is exhausted
        first); every attempt re-reads the checkpoint and skips that many
        documents. Returns the final counters and the progress lines written. */
    method IterateDocuments<D, R>(docs: seq<D>, env: Env<D, R, string>, base: Checkpoint, faults: seq<ScanFault>)
      returns (documentNumber: nat, processed: nat, log: seq<Progress>)
      modifies this
      ensures var final := Run(docs, env, base, [], [], faults);
              && documentNumber == final.documentNumber && processed == final.processed && log == final.log
              && WroteSince(old(output), old(firstWrite), final.emitted)
      ensures var owned := Owned(env.owns, base.index, |docs|);
              && documentNumber == Max(base.index, |docs|)
              && processed == base.processed + |owned|
              && log == ProgressFrom(base.processed, env.expected, owned)
              && WroteSince(old(output), old(firstWrite), EmittedFor(docs, env, owned))
    {
      ghost var prior, priorFirstWrite := output, firstWrite;
      ghost var emitted: seq<string> := [];
      ghost var final := Run(docs, env, base, [], [], faults);
      PartitionOutcome(docs, env, base, faults);
      log := [];
      var attempt := 0;
      while true
        invariant attempt <= |faults|
        invariant Run(docs, env, base, log, emitted, faults[attempt..]) == final
        invariant WroteSince(prior, priorFirstWrite, emitted)
        decreases |faults| - attempt
      {
        var exhausted;
        documentNumber, processed, log, emitted, exhausted :=
          Attempt(docs, env, base, log, emitted, faults[attempt..], prior, priorFirstWrite);
        if exhausted {
          return;
        }
        // The cursor raised: retry from the checkpoint.
        assert faults[attempt..][1..] == faults[attempt + 1..];
        attempt := attempt + 1;
      }
    }

    /** One attempt: re-reads the checkpoint from the progress lines written so
        far and scans past it until the cursor is exhausted or raises the first of
        the remaining `faults`. */
    method Attempt<D, R>(docs: seq<D>, env: Env<D, R, string>, base: Checkpoint, log: seq<Progress>,
                         ghost emitted: seq<string>, faults: seq<ScanFault>, ghost prior: string, ghost priorFirstWrite: bool)
      returns (documentNumber: nat, processed: nat, log': seq<Progress>, ghost emitted': seq<string>, exhausted: bool)
      requires WroteSince(prior, priorFirstWrite, emitted)
      modifies this
      ensures exhausted ==> ScanState(documentNumber, processed, log', emitted') == Run(docs, env, base, log, emitted, faults)
      ensures !exhausted ==> |faults| > 0 && Run(docs, env, base, log', emitted', faults[1..]) == Run(docs, env, base, log, emitted, faults)
      ensures WroteSince(prior, priorFirstWrite, emitted')
    {
      var checkpoint := ReadCheckpoint(base, log);
      var failAfter := if |faults| > 0 then faults[0].after else |docs|;
      documentNumber, processed, log', emitted', exhausted :=
        ScanCursor(docs, env, checkpoint.index, checkpoint.processed, log, emitted, failAfter, prior, priorFirstWrite);
      if exhausted {
        RunCompletes(docs, env, base, log, emitted, faults);
      } else {
        RunRetries(docs, env, base, log, emitted, faults);
      }
    }

    /** One attempt: opens the cursor past `documentNumber` and handles the
        documents it yields until the cursor is exhausted (`exhausted`) or raises
        after `failAfter` documents. */
    method ScanCursor<D, R>(docs: seq<D>, env: Env<D, R, string>, documentNumber: nat, processed: nat, log: seq<Progress>,
                            ghost emitted: seq<string>, failAfter: nat, ghost prior: string, ghost priorFirstWrite: bool)
      returns (documentNumber': nat, processed': nat, log': seq<Progress>, ghost emitted': seq<string>, exhausted: bool)
      requires WroteSince(prior, priorFirstWrite, emitted)
      modifies this
      ensures exhausted <==> documentNumber + failAfter >= |docs|
      ensures ScanState(documentNumber', processed', log', emitted')
              == Scan(docs, env, ScanState(documentNumber, processed, log, emitted),
                      if exhausted then |docs| else documentNumber + failAfter)
      ensures WroteSince(prior, priorFirstWrite, emitted')
    {
      ghost var start := ScanState(documentNumber, processed, log, emitted);
      documentNumber', processed', log', emitted' := documentNumber, processed, log, emitted;
      var cursor := if documentNumber <= |docs| then docs[documentNumber..] else [];
      var yielded := 0;
      while yielded < |cursor| && yielded < failAfter
        invariant yielded <= |cursor| && yielded <= failAfter
        invariant documentNumber' == documentNumber + yielded
        invariant yielded == 0 ==> ScanState(documentNumber', processed', log', emitted') == start
        invariant documentNumber <= |docs| ==>
                    ScanState(documentNumber', processed', log', emitted') == Scan(docs, env, start, documentNumber')
        invariant WroteSince(prior, priorFirstWrite, emitted')
      {
        var document := cursor[yielded];
        assert document == docs[documentNumber'];
        yielded := yielded + 1;
        documentNumber', processed', log', emitted' :=
          HandleDocument(env, documentNumber', processed', log', emitted', document, prior, priorFirstWrite);
      }
      exhausted := yielded == |cursor|;
    }

    /** Handles the next document the cursor yields: numbers it, and when the
        partition owns it, runs the transform, writes the record it returned (if
        any), counts the document and writes a progress line. A transform that
        raises is logged and otherwise treated like one that returned nothing. */
    method HandleDocument<D, R>(env: Env<D, R, string>, documentNumber: nat, processed: nat, log: seq<Progress>,
                                ghost emitted: seq<string>, document: D, ghost prior: string, ghost priorFirstWrite: bool)
      returns (documentNumber': nat, processed': nat, log': seq<Progress>, ghost emitted': seq<string>)
      requires WroteSince(prior, priorFirstWrite, emitted)
      modifies this
      ensures ScanState(documentNumber', processed', log', emitted')
              == Visit(env, ScanState(documentNumber, processed, log, emitted), document)
      ensures WroteSince(prior, priorFirstWrite, emitted')
    {
      documentNumber', processed', log', emitted' := documentNumber + 1, processed, log, emitted;
      if env.owns(documentNumber') {
        match env.transform(document) {
          case Returned(record) =>
            var json := env.dumps(record);
            OfferExtendsFrame(prior, priorFirstWrite, scriptWasRestarted, emitted, json, output, firstWrite);
            Offer(json);
            emitted' := emitted + [json];
          case Falsy =>
          case Raised =>
        }
        processed' := processed' + 1;
        log' := log' + [Progress(processed', env.expected, documentNumber')];
      }
    }
  }
}
