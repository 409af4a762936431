/** The per-partition scan of the document processor as a specification: a
    partition resumes from its checkpoint, numbers every document the cursor
    yields, acts only on the documents it owns, writes a progress line for each
    of them, and after a cursor fault re-reads its checkpoint and scans again. */
module Scanning {

  /** A partition's checkpoint as read back from its progress file: the absolute
      number of the last document it scanned and how many it has processed. */
  datatype Checkpoint = Checkpoint(index: nat, processed: nat)

  /** One progress line: documents processed so far, documents the partition is
      expected to process, and the absolute number of the document just handled. */
  datatype Progress = Progress(processed: nat, expected: nat, index: nat)

  /** What the transform does with one document: it returns a record, returns a
      falsy value (None, an empty dictionary, ...), or raises. */
  datatype Outcome<R> = Returned(record: R) | Falsy | Raised

  /** A scan-level fault: the cursor raises after yielding `after` documents of
      the current attempt. Both kinds are handled by rescanning from the checkpoint. */
  datatype ScanFault = CursorNotFound(after: nat) | OtherError(after: nat)

  /** What one partition works with: its membership predicate over absolute
      document numbers, the transform, the serialiser for records (into J, text
      in the processor), and the number of documents the partition is expected
      to process. */
  datatype Env<!D, !R, !J> = Env(owns: nat -> bool, transform: D -> Outcome<R>, dumps: R -> J, expected: nat)

  /** The scan's state: the local counters, the progress lines written so far and
      the serialised records offered to the output so far. */
  datatype ScanState<J> = ScanState(documentNumber: nat, processed: nat, log: seq<Progress>, emitted: seq<J>)

  function Max(a: nat, b: nat): (r: nat)
  {
    if a < b then b else a
  }

  /** The checkpoint a (re)started scan reads: the last progress line written, or
      the checkpoint the partition started from when it has written none. */
  function ReadCheckpoint(base: Checkpoint, log: seq<Progress>): (cp: Checkpoint)
  {
    if log == [] then base else Checkpoint(log[|log| - 1].index, log[|log| - 1].processed)
  }

  /** The state in which a scan attempt starts. */
  function Resumed<J>(base: Checkpoint, log: seq<Progress>, emitted: seq<J>): (r: ScanState<J>)
  {
    var cp := ReadCheckpoint(base, log);
    ScanState(cp.index, cp.processed, log, emitted)
  }

  /** The records a document contributes to the output when it is processed. */
  function Written<D, R, J>(env: Env<D, R, J>, doc: D): (r: seq<J>)
    ensures |r| <= 1
    ensures r != [] <==> env.transform(doc).Returned?
    ensures r != [] ==> r[0] == env.dumps(env.transform(doc).record)
  {
    match env.transform(doc)
    case Returned(record) => [env.dumps(record)]
    case _ => []
  }

  /** Handling of the next document the cursor yields. */
  function Visit<D, R, J>(env: Env<D, R, J>, st: ScanState<J>, doc: D): (r: ScanState<J>)
    ensures r.documentNumber == st.documentNumber + 1
    ensures env.owns(r.documentNumber) ==>
              && r.log == st.log + [Progress(r.processed, env.expected, r.documentNumber)]
              && r.emitted == st.emitted + Written(env, doc)
    ensures env.owns(r.documentNumber) <==> r.processed == st.processed + 1
    ensures !env.owns(r.documentNumber) ==> r == st.(documentNumber := r.documentNumber)
  {
    var n := st.documentNumber + 1;
    if env.owns(n) then
      var p := st.processed + 1;
      ScanState(n, p, st.log + [Progress(p, env.expected, n)], st.emitted + Written(env, doc))
    else
      st.(documentNumber := n)
  }

  /** One uninterrupted attempt: the documents with absolute numbers
      st.documentNumber + 1 .. upto handled in order. */
  function Scan<D, R, J>(docs: seq<D>, env: Env<D, R, J>, st: ScanState<J>, upto: nat): (r: ScanState<J>)
    requires upto <= |docs|
    ensures r.documentNumber == Max(st.documentNumber, upto)
    ensures st.processed <= r.processed
    decreases upto
  {
    if upto <= st.documentNumber then st
    else Visit(env, Scan(docs, env, st, upto - 1), docs[upto - 1])
  }

  /** A whole call: attempt after attempt, each starting from a freshly read
      checkpoint, until an attempt exhausts the cursor. The i-th attempt raises
      faults[i] unless the cursor runs out first; after the faults are used up the
      attempt runs to the end. */
  function Run<D, R, J>(docs: seq<D>, env: Env<D, R, J>, base: Checkpoint, log: seq<Progress>, emitted: seq<J>,
                        faults: seq<ScanFault>): (r: ScanState<J>)
    ensures r.documentNumber >= |docs|
    decreases |faults|
  {
    var st := Resumed(base, log, emitted);
    if |faults| == 0 || st.documentNumber + faults[0].after >= |docs| then
      Scan(docs, env, st, |docs|)
    else
      var mid := Scan(docs, env, st, st.documentNumber + faults[0].after);
      Run(docs, env, base, mid.log, mid.emitted, faults[1..])
  }

  /** A faulted attempt hands its progress lines and records to the next one. */
  lemma RunRetries<D, R, J>(docs: seq<D>, env: Env<D, R, J>, base: Checkpoint, log: seq<Progress>, emitted: seq<J>,
                         faults: seq<ScanFault>)
    requires |faults| > 0 && Resumed(base, log, emitted).documentNumber + faults[0].after < |docs|
    ensures var st := Resumed(base, log, emitted);
            var mid := Scan(docs, env, st, st.documentNumber + faults[0].after);
            Run(docs, env, base, log, emitted, faults) == Run(docs, env, base, mid.log, mid.emitted, faults[1..])
  {
  }

  /** An attempt that meets no fault before the cursor runs out ends the call. */
  lemma RunCompletes<D, R, J>(docs: seq<D>, env: Env<D, R, J>, base: Checkpoint, log: seq<Progress>, emitted: seq<J>,
                            faults: seq<ScanFault>)
    requires |faults| == 0 || Resumed(base, log, emitted).documentNumber + faults[0].after >= |docs|
    ensures Run(docs, env, base, log, emitted, faults) == Scan(docs, env, Resumed(base, log, emitted), |docs|)
  {
  }

  // ---------- reference definitions ----------

  /** The absolute numbers in (lo, hi] that the partition owns, in increasing order. */
  function Owned(owns: nat -> bool, lo: nat, hi: nat): (r: seq<nat>)
    ensures forall j :: 0 <= j < |r| ==> lo < r[j] <= hi && owns(r[j])
    decreases hi
  {
    if hi <= lo then [] else Owned(owns, lo, hi - 1) + (if owns(hi) then [hi] else [])
  }

  ghost predicate Increasing(s: seq<nat>)
  {
    forall j, k :: 0 <= j < k < |s| ==> s[j] < s[k]
  }

  /** The owned document numbers are listed in strictly increasing order. */
  lemma {:induction false} OwnedIsIncreasing(owns: nat -> bool, lo: nat, hi: nat)
    ensures Increasing(Owned(owns, lo, hi))
    decreases hi
  {
    if hi > lo {
      OwnedIsIncreasing(owns, lo, hi - 1);
      var prev := Owned(owns, lo, hi - 1);
      if owns(hi) {
        var r := prev + [hi];
        assert Owned(owns, lo, hi) == r;
        forall j, k | 0 <= j < k < |r|
          ensures r[j] < r[k]
        {
          assert r[j] == prev[j];
          if k < |prev| {
            assert r[k] == prev[k];
          } else {
            assert r[k] == hi;
          }
        }
      } else {
        assert Owned(owns, lo, hi) == prev + [] == prev;
      }
    }
  }

  /** Every owned document number in (lo, hi] is listed. */
  lemma {:induction false} OwnedIsComplete(owns: nat -> bool, lo: nat, hi: nat, i: nat)
    requires lo < i <= hi && owns(i)
    ensures i in Owned(owns, lo, hi)
    decreases hi
  {
    if i < hi {
      OwnedIsComplete(owns, lo, hi - 1, i);
    }
  }

  /** One progress line per document number in `indices`, counting on from `processed`. */
  function ProgressFrom(processed: nat, expected: nat, indices: seq<nat>): (r: seq<Progress>)
  {
    seq(|indices|, j requires 0 <= j < |indices| => Progress(processed + j + 1, expected, indices[j]))
  }

  /** The records written for the documents numbered `indices`, in that order. */
  function EmittedFor<D, R, J>(docs: seq<D>, env: Env<D, R, J>, indices: seq<nat>): (r: seq<J>)
  {
    if indices == [] then []
    else EmittedFor(docs, env, indices[..|indices| - 1]) + WrittenAt(docs, env, indices[|indices| - 1])
  }

  /** The records the document numbered i (1-based) yields; numbers past the end
      of the partition's documents yield none. */
  function WrittenAt<D, R, J>(docs: seq<D>, env: Env<D, R, J>, i: nat): (r: seq<J>)
  {
    if 1 <= i <= |docs| then Written(env, docs[i - 1]) else []
  }

  /** No document numbered in (lo, hi] belongs to the partition. */
  ghost predicate NoneOwned(owns: nat -> bool, lo: nat, hi: nat)
  {
    forall i :: lo < i <= hi ==> !owns(i)
  }

  /** The scan state agrees with the checkpoint a restart would read: same
      processed count, and every document after the checkpoint that the scan has
      already passed is one the partition does not own. */
  ghost predicate Consistent<D, R, J>(env: Env<D, R, J>, base: Checkpoint, st: ScanState<J>)
  {
    var cp := ReadCheckpoint(base, st.log);
    cp.processed == st.processed && cp.index <= st.documentNumber && NoneOwned(env.owns, cp.index, st.documentNumber)
  }

  // ---------- properties ----------

  /** What an attempt from `st` up to document number `upto` should leave behind:
      one progress line for every owned document after st.documentNumber, the
      records of those whose transform returned one, in document order. */
  function Reference<D, R, J>(docs: seq<D>, env: Env<D, R, J>, st: ScanState<J>, upto: nat): (r: ScanState<J>)
    requires upto <= |docs|
  {
    var owned := Owned(env.owns, st.documentNumber, upto);
    ScanState(Max(st.documentNumber, upto), st.processed + |owned|,
              st.log + ProgressFrom(st.processed, env.expected, owned),
              st.emitted + EmittedFor(docs, env, owned))
  }

  /** An attempt processes exactly the owned documents after its starting point,
      each once and in increasing order: one progress line each, numbered on from
      the starting count, whatever the transform did, and the records of those
      that returned one. */
  lemma ScanMatchesReference<D, R, J>(docs: seq<D>, env: Env<D, R, J>, st: ScanState<J>, upto: nat)
    requires upto <= |docs|
    ensures Scan(docs, env, st, upto) == Reference(docs, env, st, upto)
  {
    ScanCountsOwned(docs, env, st, upto);
    ScanLogsOwned(docs, env, st, upto);
    ScanEmitsOwned(docs, env, st, upto);
  }

  /** The processed count rises by one for every owned document and by nothing else. */
  lemma {:induction false} ScanCountsOwned<D, R, J>(docs: seq<D>, env: Env<D, R, J>, st: ScanState<J>, upto: nat)
    requires upto <= |docs|
    ensures Scan(docs, env, st, upto).processed == st.processed + |Owned(env.owns, st.documentNumber, upto)|
    decreases upto
  {
    if upto > st.documentNumber {
      ScanCountsOwned(docs, env, st, upto - 1);
    }
  }

  /** Exactly one progress line is written per owned document, in document order. */
  lemma {:induction false} ScanLogsOwned<D, R, J>(docs: seq<D>, env: Env<D, R, J>, st: ScanState<J>, upto: nat)
    requires upto <= |docs|
    ensures Scan(docs, env, st, upto).log
            == st.log + ProgressFrom(st.processed, env.expected, Owned(env.owns, st.documentNumber, upto))
    decreases upto
  {
    if upto <= st.documentNumber {
      assert Owned(env.owns, st.documentNumber, upto) == [];
      assert ProgressFrom(st.processed, env.expected, []) == [];
      assert st.log + [] == st.log;
    } else {
      ScanLogsOwned(docs, env, st, upto - 1);
      ScanCountsOwned(docs, env, st, upto - 1);
      ScanLogsNext(docs, env, st, upto);
    }
  }

  /** The inductive step of ScanLogsOwned. */
  lemma ScanLogsNext<D, R, J>(docs: seq<D>, env: Env<D, R, J>, st: ScanState<J>, upto: nat)
    requires st.documentNumber < upto <= |docs|
    requires Scan(docs, env, st, upto - 1).processed == st.processed + |Owned(env.owns, st.documentNumber, upto - 1)|
    requires Scan(docs, env, st, upto - 1).log
             == st.log + ProgressFrom(st.processed, env.expected, Owned(env.owns, st.documentNumber, upto - 1))
    ensures Scan(docs, env, st, upto).log
            == st.log + ProgressFrom(st.processed, env.expected, Owned(env.owns, st.documentNumber, upto))
  {
    var prev := Owned(env.owns, st.documentNumber, upto - 1);
    if env.owns(upto) {
      assert Owned(env.owns, st.documentNumber, upto) == prev + [upto];
      LogStep(st.log, st.processed, env.expected, prev, upto);
    } else {
      assert Owned(env.owns, st.documentNumber, upto) == prev + [] == prev;
    }
  }

  /** The records offered are those of the owned documents, in document order. */
  lemma {:induction false} ScanEmitsOwned<D, R, J>(docs: seq<D>, env: Env<D, R, J>, st: ScanState<J>, upto: nat)
    requires upto <= |docs|
    ensures Scan(docs, env, st, upto).emitted == st.emitted + EmittedFor(docs, env, Owned(env.owns, st.documentNumber, upto))
    decreases upto
  {
    if upto <= st.documentNumber {
      assert Owned(env.owns, st.documentNumber, upto) == [];
      assert st.emitted + [] == st.emitted;
    } else {
      ScanEmitsOwned(docs, env, st, upto - 1);
      ScanEmitsNext(docs, env, st, upto);
    }
  }

  /** The inductive step of ScanEmitsOwned. */
  lemma ScanEmitsNext<D, R, J>(docs: seq<D>, env: Env<D, R, J>, st: ScanState<J>, upto: nat)
    requires st.documentNumber < upto <= |docs|
    requires Scan(docs, env, st, upto - 1).emitted
             == st.emitted + EmittedFor(docs, env, Owned(env.owns, st.documentNumber, upto - 1))
    ensures Scan(docs, env, st, upto).emitted == st.emitted + EmittedFor(docs, env, Owned(env.owns, st.documentNumber, upto))
  {
    ScanEmitsStep(docs, env, st, upto);
    OwnedEmitsStep(docs, env, st.documentNumber, upto);
    Regroup(Scan(docs, env, st, upto - 1).emitted, st.emitted,
            EmittedFor(docs, env, Owned(env.owns, st.documentNumber, upto - 1)), OfferedAt(docs, env, upto),
            Scan(docs, env, st, upto).emitted, EmittedFor(docs, env, Owned(env.owns, st.documentNumber, upto)));
  }

  lemma Regroup<T>(a: seq<T>, b: seq<T>, c: seq<T>, e: seq<T>, x: seq<T>, y: seq<T>)
    requires a == b + c && x == a + e && y == c + e
    ensures x == b + y
  {
    assert (b + c) + e == b + (c + e);
  }

  /** What the scan offers on reaching document i: its records if the partition
      owns it, nothing otherwise. */
  function OfferedAt<D, R, J>(docs: seq<D>, env: Env<D, R, J>, i: nat): (r: seq<J>)
  {
    if env.owns(i) then WrittenAt(docs, env, i) else []
  }

  lemma ScanEmitsStep<D, R, J>(docs: seq<D>, env: Env<D, R, J>, st: ScanState<J>, upto: nat)
    requires st.documentNumber < upto <= |docs|
    ensures Scan(docs, env, st, upto).emitted == Scan(docs, env, st, upto - 1).emitted + OfferedAt(docs, env, upto)
  {
    var before := Scan(docs, env, st, upto - 1).emitted;
    if !env.owns(upto) {
      assert before + [] == before;
    }
  }

  lemma OwnedEmitsStep<D, R, J>(docs: seq<D>, env: Env<D, R, J>, lo: nat, hi: nat)
    requires lo < hi
    ensures EmittedFor(docs, env, Owned(env.owns, lo, hi))
            == EmittedFor(docs, env, Owned(env.owns, lo, hi - 1)) + OfferedAt(docs, env, hi)
  {
    var prev := Owned(env.owns, lo, hi - 1);
    if env.owns(hi) {
      assert Owned(env.owns, lo, hi) == prev + [hi];
      EmittedStep(docs, env, prev, hi);
    } else {
      assert Owned(env.owns, lo, hi) == prev + [] == prev;
      assert EmittedFor(docs, env, prev) + [] == EmittedFor(docs, env, prev);
    }
  }

  lemma LogStep(log: seq<Progress>, processed: nat, expected: nat, indices: seq<nat>, i: nat)
    ensures log + ProgressFrom(processed, expected, indices + [i])
            == (log + ProgressFrom(processed, expected, indices)) + [Progress(processed + |indices| + 1, expected, i)]
  {
    var before := ProgressFrom(processed, expected, indices);
    var line := Progress(processed + |indices| + 1, expected, i);
    assert ProgressFrom(processed, expected, indices + [i]) == before + [line];
    assert (log + before) + [line] == log + (before + [line]);
  }

  lemma EmittedStep<D, R, J>(docs: seq<D>, env: Env<D, R, J>, indices: seq<nat>, i: nat)
    ensures EmittedFor(docs, env, indices + [i]) == EmittedFor(docs, env, indices) + WrittenAt(docs, env, i)
  {
    assert (indices + [i])[..|indices|] == indices;
  }

  /** Scanning on from the end of a shorter scan is the same as one longer scan. */
  lemma {:induction false} ScanCompose<D, R, J>(docs: seq<D>, env: Env<D, R, J>, st: ScanState<J>, k: nat, n: nat)
    requires st.documentNumber <= k <= n <= |docs|
    ensures Scan(docs, env, Scan(docs, env, st, k), n) == Scan(docs, env, st, n)
    decreases n
  {
    if n > k {
      ScanCompose(docs, env, st, k, n - 1);
    }
  }

  /** The progress file always describes the scan: after any prefix of an attempt
      that started consistent, the last progress line holds the current processed
      count and no owned document lies between it and the current position. */
  lemma {:induction false} ScanKeepsConsistent<D, R, J>(docs: seq<D>, env: Env<D, R, J>, base: Checkpoint, st: ScanState<J>, upto: nat)
    requires upto <= |docs|
    requires Consistent(env, base, st)
    ensures Consistent(env, base, Scan(docs, env, st, upto))
    decreases upto
  {
    if upto > st.documentNumber {
      ScanKeepsConsistent(docs, env, base, st, upto - 1);
      var prev := Scan(docs, env, st, upto - 1);
      var cp := ReadCheckpoint(base, prev.log);
      if !env.owns(upto) {
        forall i | cp.index < i <= upto
          ensures !env.owns(i)
        {
          if i < upto {
            assert cp.index < i <= prev.documentNumber;
          }
        }
      }
    }
  }

  /** After a fault, the rescan from the re-read checkpoint passes only documents
      the partition does not own and arrives exactly at the state the fault
      interrupted: nothing already counted is counted again. */
  lemma RescanFromCheckpoint<D, R, J>(docs: seq<D>, env: Env<D, R, J>, base: Checkpoint, st: ScanState<J>)
    requires Consistent(env, base, st)
    requires st.documentNumber <= |docs|
    ensures Scan(docs, env, Resumed(base, st.log, st.emitted), st.documentNumber) == st
  {
    var r := Resumed(base, st.log, st.emitted);
    ScanMatchesReference(docs, env, r, st.documentNumber);
  }

  /** However many faults interrupt it and wherever they strike, a call ends in the
      state one uninterrupted attempt from the re-read checkpoint reaches. */
  lemma {:induction false} RunResumesWithoutRecount<D, R, J>(docs: seq<D>, env: Env<D, R, J>, base: Checkpoint,
                                                         log: seq<Progress>, emitted: seq<J>, faults: seq<ScanFault>)
    ensures Run(docs, env, base, log, emitted, faults) == Scan(docs, env, Resumed(base, log, emitted), |docs|)
    decreases |faults|
  {
    var st := Resumed(base, log, emitted);
    if |faults| > 0 && st.documentNumber + faults[0].after < |docs| {
      var k := st.documentNumber + faults[0].after;
      var mid := Scan(docs, env, st, k);
      var again := Resumed(base, mid.log, mid.emitted);
      RunRetries(docs, env, base, log, emitted, faults);
      RunResumesWithoutRecount(docs, env, base, mid.log, mid.emitted, faults[1..]);
      assert Scan(docs, env, again, |docs|) == Scan(docs, env, st, |docs|) by {
        assert Consistent(env, base, st);
        ScanKeepsConsistent(docs, env, base, st, k);
        RescanFromCheckpoint(docs, env, base, mid);
        ScanCompose(docs, env, again, k, |docs|);
        ScanCompose(docs, env, st, k, |docs|);
      }
    } else {
      RunCompletes(docs, env, base, log, emitted, faults);
    }
  }

  /** What a call leaves behind does not depend on the scan faults it met. */
  lemma FaultsDoNotChangeOutcome<D, R, J>(docs: seq<D>, env: Env<D, R, J>, base: Checkpoint, faults: seq<ScanFault>)
    ensures Run(docs, env, base, [], [], faults) == Run(docs, env, base, [], [], [])
  {
    RunResumesWithoutRecount(docs, env, base, [], [], faults);
  }

  /** A call from checkpoint `base` ends at document number max(base.index, |docs|),
      has processed every owned document after base.index exactly once, in
      increasing order, and has offered the records of those that returned one. */
  lemma PartitionOutcome<D, R, J>(docs: seq<D>, env: Env<D, R, J>, base: Checkpoint, faults: seq<ScanFault>)
    ensures var owned := Owned(env.owns, base.index, |docs|);
            Run(docs, env, base, [], [], faults)
            == ScanState(Max(base.index, |docs|), base.processed + |owned|,
                         ProgressFrom(base.processed, env.expected, owned), EmittedFor(docs, env, owned))
  {
    RunResumesWithoutRecount(docs, env, base, [], [], faults);
    ScanMatchesReference(docs, env, Resumed(base, [], []), |docs|);
  }

  /** The progress lines of a call: one per owned document after the starting
      checkpoint, never one at or before it, in increasing document order, with
      consecutive processed counts ending at the final count. */
  lemma ProgressLogShape<D, R, J>(docs: seq<D>, env: Env<D, R, J>, base: Checkpoint, faults: seq<ScanFault>)
    ensures var r := Run(docs, env, base, [], [], faults);
            && r.processed == base.processed + |r.log|
            && (forall j :: 0 <= j < |r.log| ==>
                  && base.index < r.log[j].index <= |docs|
                  && env.owns(r.log[j].index)
                  && r.log[j].processed == base.processed + j + 1
                  && r.log[j].expected == env.expected)
            && (forall j, k :: 0 <= j < k < |r.log| ==> r.log[j].index < r.log[k].index)
            && (forall i :: base.index < i <= |docs| && env.owns(i) ==> exists j :: 0 <= j < |r.log| && r.log[j].index == i)
  {
    PartitionOutcome(docs, env, base, faults);
    var owned := Owned(env.owns, base.index, |docs|);
    OwnedIsIncreasing(env.owns, base.index, |docs|);
    var r := Run(docs, env, base, [], [], faults);
    forall i | base.index < i <= |docs| && env.owns(i)
      ensures exists j :: 0 <= j < |r.log| && r.log[j].index == i
    {
      OwnedIsComplete(env.owns, base.index, |docs|, i);
      var j :| 0 <= j < |owned| && owned[j] == i;
      assert r.log[j].index == i;
    }
  }

  /** The transform's results never affect the bookkeeping: two partitions with the
      same membership and expected count, whatever their transforms return or
      raise and whatever faults they meet, end with the same counters and the
      same progress lines. */
  lemma BookkeepingIgnoresTransform<D, R, J>(docs: seq<D>, owns: nat -> bool, expected: nat, base: Checkpoint,
                                          transform1: D -> Outcome<R>, dumps1: R -> J, faults1: seq<ScanFault>,
                                          transform2: D -> Outcome<R>, dumps2: R -> J, faults2: seq<ScanFault>)
    ensures var r1 := Run(docs, Env(owns, transform1, dumps1, expected), base, [], [], faults1);
            var r2 := Run(docs, Env(owns, transform2, dumps2, expected), base, [], [], faults2);
            r1.documentNumber == r2.documentNumber && r1.processed == r2.processed && r1.log == r2.log
  {
    PartitionOutcome(docs, Env(owns, transform1, dumps1, expected), base, faults1);
    PartitionOutcome(docs, Env(owns, transform2, dumps2, expected), base, faults2);
  }
}
