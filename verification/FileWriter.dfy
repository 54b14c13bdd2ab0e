/** The writer's monitor thread: wait, retry after a failure, give up after too many. */
module FileWriter {

  const MAX_ERRORS: nat := 5

  /** The state of thread_monitor at its loop head; `rslt` is the last save, `saved` the history. */
  datatype Monitor<T> = Monitor(queue: seq<T>, errcnt: nat, rslt: bool, saved: seq<T>)

  /** One pass of the loop: the files that arrive before the save, and whether the save succeeds. */
  datatype Pass<T> = Pass(arrivals: seq<T>, saves: bool)

  /** The wait returns only when there is a file. */
  predicate CanPass<T>(m: Monitor<T>, p: Pass<T>) {
    m.errcnt < MAX_ERRORS && m.queue + p.arrivals != []
  }

  /** The error count after the loop's three-way test: waiting skips it. */
  function ErrorsAt<T>(m: Monitor<T>): nat {
    if m.queue == [] then m.errcnt else if !m.rslt then m.errcnt + 1 else 0
  }

  function Iterate<T>(m: Monitor<T>, p: Pass<T>): Monitor<T>
    requires CanPass(m, p)
  {
    var queue := m.queue + p.arrivals;
    if p.saves then Monitor(queue[1..], ErrorsAt(m), true, m.saved + [queue[0]])
    else Monitor(queue, ErrorsAt(m), false, m.saved)
  }

  /** The passes made of a script; a pass that finds no file keeps waiting. */
  function Monitored<T>(m: Monitor<T>, script: seq<Pass<T>>): Monitor<T>
    decreases |script|
  {
    if script == [] || m.errcnt >= MAX_ERRORS then m
    else Monitored(if CanPass(m, script[0]) then Iterate(m, script[0]) else m, script[1..])
  }

  function Arrivals<T>(script: seq<Pass<T>>): seq<T> {
    if script == [] then [] else script[0].arrivals + Arrivals(script[1..])
  }


  /** Whatever arrives and whatever fails: the error count stays within 0..5, and the files saved
      followed by the queue are the files that came, in order and each once. */
  lemma {:induction false} MonitorConserves<T>(m: Monitor<T>, script: seq<Pass<T>>)
    requires m.errcnt <= MAX_ERRORS && (m.queue == [] ==> m.rslt)
    ensures var r := Monitored(m, script);
            r.errcnt <= MAX_ERRORS && (r.queue == [] ==> r.rslt)
            && m.saved <= r.saved && m.saved + m.queue <= r.saved + r.queue
            && r.saved + r.queue <= m.saved + m.queue + Arrivals(script)
            && (r.errcnt < MAX_ERRORS ==> r.saved + r.queue == m.saved + m.queue + Arrivals(script))
    decreases |script|
  {
    if script != [] && m.errcnt < MAX_ERRORS {
      var p := script[0];
      var n := if CanPass(m, p) then Iterate(m, p) else m;
      IterateConserves(m, p);
      MonitorConserves(n, script[1..]);
      hide Iterate, Monitored;
      assert (m.saved + m.queue + p.arrivals) + Arrivals(script[1..]) ==
        m.saved + m.queue + (p.arrivals + Arrivals(script[1..]));
    }
  }

  lemma IterateConserves<T>(m: Monitor<T>, p: Pass<T>)
    requires m.errcnt < MAX_ERRORS && (m.queue == [] ==> m.rslt)
    ensures var n := if CanPass(m, p) then Iterate(m, p) else m;
            n.saved + n.queue == m.saved + m.queue + p.arrivals && m.saved <= n.saved
            && n.errcnt <= MAX_ERRORS && (n.queue == [] ==> n.rslt)
  {
    var queue := m.queue + p.arrivals;
    if queue != [] { assert queue == [queue[0]] + queue[1..]; }
    assert m.saved + (m.queue + p.arrivals) == m.saved + m.queue + p.arrivals;
  }

  /* ---------- what is saved ---------- */

  /** The successful passes made before the loop gives up. */
  function Successes<T>(m: Monitor<T>, script: seq<Pass<T>>): nat
    decreases |script|
  {
    if script == [] || m.errcnt >= MAX_ERRORS then 0
    else if !CanPass(m, script[0]) then Successes(m, script[1..])
    else (if script[0].saves then 1 else 0) + Successes(Iterate(m, script[0]), script[1..])
  }

  /** A pass over a non-empty queue saves exactly its front if the save succeeds, and nothing else. */
  lemma OnePassSaves<T>(m: Monitor<T>, p: Pass<T>)
    requires m.errcnt < MAX_ERRORS && m.queue + p.arrivals != []
    ensures var r, files := Monitored(m, [p]), m.queue + p.arrivals;
            if p.saves then r.saved == m.saved + [files[0]] && r.queue == files[1..]
            else r.saved == m.saved && r.queue == files
  {
    assert Monitored(m, [p]) == Monitored(Iterate(m, p), [p][1..]);
  }

  /** Over every run: as many files are saved as passes were successful, and they are the first of those
      queued and arrived, in order. */
  lemma {:induction false} SavesCounted<T>(m: Monitor<T>, script: seq<Pass<T>>)
    requires m.errcnt <= MAX_ERRORS && (m.queue == [] ==> m.rslt)
    ensures var n, all := Successes(m, script), m.queue + Arrivals(script);
            n <= |all| && Monitored(m, script).saved == m.saved + all[..n]
    decreases |script|
  {
    SuccessesCounted(m, script);
    MonitorConserves(m, script);
    var r, all := Monitored(m, script), m.queue + Arrivals(script);
    var n := Successes(m, script);
    hide Monitored, Successes;
    assert r.saved + r.queue <= m.saved + all by { assert m.saved + m.queue + Arrivals(script) == m.saved + all; }
    PrefixIs(r.saved, r.queue, m.saved, all, n);
  }

  lemma PrefixIs<T>(s: seq<T>, q: seq<T>, before: seq<T>, all: seq<T>, n: nat)
    requires s + q <= before + all && before <= s && |s| == |before| + n
    ensures n <= |all| && s == before + all[..n]
  {
    assert s == (s + q)[..|s|] == (before + all)[..|s|];
  }

  lemma {:induction false} SuccessesCounted<T>(m: Monitor<T>, script: seq<Pass<T>>)
    requires m.errcnt <= MAX_ERRORS
    ensures |Monitored(m, script).saved| == |m.saved| + Successes(m, script)
    decreases |script|
  {
    if script != [] && m.errcnt < MAX_ERRORS {
      var p := script[0];
      SuccessesCounted(if CanPass(m, p) then Iterate(m, p) else m, script[1..]);
    }
  }

  function GoodPasses<T>(n: nat): seq<Pass<T>> {
    seq(n, i => Pass([], true))
  }

  /** While every save succeeds, n passes write the first n files of a backlog. */
  lemma {:induction false} BacklogIsWritten<T>(m: Monitor<T>, n: nat)
    requires m.errcnt < MAX_ERRORS && m.rslt && n <= |m.queue|
    ensures var r := Monitored(m, GoodPasses(n));
            r.saved == m.saved + m.queue[..n] && r.queue == m.queue[n..]
    decreases n
  {
    var script := GoodPasses<T>(n);
    if n == 0 {
      assert m.saved + m.queue[..0] == m.saved;
    } else {
      assert m.queue + [] == m.queue;
      var next := Iterate(m, script[0]);
      assert script[1..] == GoodPasses<T>(n - 1);
      BacklogIsWritten(next, n - 1);
      assert [m.queue[0]] + m.queue[1..][..n - 1] == m.queue[..n];
      assert m.saved + [m.queue[0]] + m.queue[1..][..n - 1] == m.saved + ([m.queue[0]] + m.queue[1..][..n - 1]);
    }
  }

  /* ---------- giving up ---------- */

  predicate AllFail<T>(script: seq<Pass<T>>) {
    forall i :: 0 <= i < |script| ==> !script[i].saves
  }

  /** How many more saves the loop makes once they fail for good. */
  function AttemptsLeft<T>(m: Monitor<T>): nat
    requires m.errcnt <= MAX_ERRORS
  {
    if !m.rslt then MAX_ERRORS - m.errcnt
    else if m.queue == [] then MAX_ERRORS + 1 - m.errcnt
    else MAX_ERRORS + 1
  }

  /** Once saves fail for good and there is a file, the loop makes exactly `AttemptsLeft` more, at most
      six, and then stops, with no file lost or reordered; before that it is still running. */
  lemma {:induction false} FailsForGood<T>(m: Monitor<T>, script: seq<Pass<T>>)
    requires m.errcnt < MAX_ERRORS && AllFail(script) && (m.queue == [] ==> m.rslt)
    requires script != [] ==> m.queue + script[0].arrivals != []
    ensures AttemptsLeft(m) <= MAX_ERRORS + 1
    ensures var r := Monitored(m, script);
            (r.errcnt == MAX_ERRORS <==> |script| >= AttemptsLeft(m)) && r.saved == m.saved && m.queue <= r.queue
            && (|script| <= AttemptsLeft(m) ==> r.queue == m.queue + Arrivals(script))
    decreases |script|
  {
    if script != [] {
      var n := Iterate(m, script[0]);
      if n.errcnt < MAX_ERRORS {
        assert n.queue + (if |script| > 1 then script[1].arrivals else []) != [];
        FailsForGood(n, script[1..]);
        assert m.queue + script[0].arrivals + Arrivals(script[1..]) ==
          m.queue + (script[0].arrivals + Arrivals(script[1..]));
      } else {
        assert Monitored(n, script[1..]) == n;
        assert |script| == 1 ==> Arrivals(script[1..]) == [];
      }
    } else {
      assert m.queue + [] == m.queue;
    }
  }

  /** After a success the writer survives five failures in a row exactly when the success left files
      behind or the error count is zero: a wait on the drained queue skips the reset of the count. */
  lemma FiveFailures<T>(m: Monitor<T>, script: seq<Pass<T>>)
    requires m.errcnt < MAX_ERRORS && m.rslt && |script| == 5 && AllFail(script)
    requires m.queue + script[0].arrivals != []
    ensures Monitored(m, script).errcnt < MAX_ERRORS <==> m.queue != [] || m.errcnt == 0
  {
    FailsForGood(m, script);
    MonitorConserves(m, script);
  }

  /** Four failures, one success that empties the queue, and then two failures: the writer stops. */
  lemma TwoFailuresCanStop<T>(x: T, y: T)
    ensures var script := [Pass([x], false), Pass([], false), Pass([], false), Pass([], false),
                           Pass([], true), Pass([y], false), Pass([], false)];
            Monitored(Monitor([], 0, true, []), script) == Monitor([y], MAX_ERRORS, false, [x])
  {
    var script := [Pass([x], false), Pass([], false), Pass([], false), Pass([], false),
                   Pass([], true), Pass([y], false), Pass([], false)];
    var m0: Monitor<T> := Monitor([], 0, true, []);
    var m1 := Iterate(m0, script[0]);
    var m2 := Iterate(m1, script[1]);
    var m3 := Iterate(m2, script[2]);
    var m4 := Iterate(m3, script[3]);
    var m5 := Iterate(m4, script[4]);
    var m6 := Iterate(m5, script[5]);
    var m7 := Iterate(m6, script[6]);
    assert m4.errcnt == 3 && m5 == Monitor([], 4, true, [x]);
    assert m6 == Monitor([y], 4, false, [x]) && m7 == Monitor([y], MAX_ERRORS, false, [x]);
    hide Iterate;
    assert Monitored(m6, script[6..]) == Monitored(m7, script[7..]);
    assert Monitored(m5, script[5..]) == Monitored(m6, script[6..]);
    assert Monitored(m4, script[4..]) == Monitored(m5, script[5..]);
    assert Monitored(m3, script[3..]) == Monitored(m4, script[4..]);
    assert Monitored(m2, script[2..]) == Monitored(m3, script[3..]);
    assert Monitored(m1, script[1..]) == Monitored(m2, script[2..]);
  }

  /* ---------- the object ---------- */

  class Writer<T> {
    var quenf: seq<T>
    var running: bool
    var errcnt: nat
    var rslt: bool
    ghost var saved: seq<T>
    ghost var accepted: seq<T>

    ghost function Value(): Monitor<T>
      reads this
    {
      Monitor(quenf, errcnt, rslt, saved)
    }

    /** What NewFile accepted is what was saved, then what is queued. */
    ghost predicate Valid()
      reads this
    {
      accepted == saved + quenf && errcnt <= MAX_ERRORS && (quenf == [] ==> rslt)
    }

    constructor ()
      ensures Valid() && !running && Value() == Monitor([], 0, true, [])
    {
      quenf, running, errcnt, rslt, saved, accepted := [], false, 0, true, [], [];
    }

    method NewFile(file: T)
      requires Valid()
      modifies this`quenf, this`accepted
      ensures Valid()
      ensures quenf == if running then old(quenf) + [file] else old(quenf)
      ensures accepted == if running then old(accepted) + [file] else old(accepted)
    {
      if running {
        quenf := quenf + [file];
        accepted := accepted + [file];
      }
    }

    /** The front is read, written and popped; `writes` says whether the directory and file could be
        created. */
    method SaveFirst(writes: bool) returns (ok: bool)
      requires quenf != []
      modifies this`quenf, this`saved
      ensures ok == writes
      ensures ok ==> saved == old(saved) + [old(quenf)[0]] && quenf == old(quenf)[1..]
      ensures !ok ==> saved == old(saved) && quenf == old(quenf)
    {
      var front := quenf[0];
      if writes {
        saved := saved + [front];
        quenf := quenf[1..];
      }
      ok := writes;
    }

    /** One pass of the loop of thread_monitor. */
    method OnePass(pass: Pass<T>)
      requires Valid() && errcnt < MAX_ERRORS
      modifies this`quenf, this`accepted, this`errcnt, this`rslt, this`saved
      ensures Valid() && accepted == old(accepted) + pass.arrivals
      ensures Value() == if CanPass(old(Value()), pass) then Iterate(old(Value()), pass) else old(Value())
      ensures var files := old(quenf) + pass.arrivals;
              if files != [] && pass.saves then saved == old(saved) + [files[0]] && quenf == files[1..] && rslt
              else saved == old(saved) && quenf == files && (files != [] ==> !rslt)
      ensures errcnt == if old(quenf) == [] then old(errcnt) else if old(rslt) then 0 else old(errcnt) + 1
    {
      IterateConserves(Value(), pass);
      var waiting := quenf == [];
      if !waiting && !rslt { errcnt := errcnt + 1; }
      else if !waiting && errcnt != 0 { errcnt := 0; }
      quenf, accepted := quenf + pass.arrivals, accepted + pass.arrivals;
      if quenf != [] { rslt := SaveFirst(pass.saves); }
    }

    /** thread_monitor against a script of arrivals and save outcomes, until it gives up or the script
        ends with the thread waiting. */
    method ThreadMonitor(script: seq<Pass<T>>)
      requires Valid()
      modifies this
      ensures Valid() && Value() == Monitored(Monitor(old(quenf), 0, true, old(saved)), script)
      ensures running <==> errcnt < MAX_ERRORS
    {
      running, errcnt, rslt := true, 0, true;
      var i := 0;
      while errcnt < MAX_ERRORS && i < |script|
        invariant i <= |script| && Valid() && running
        invariant Monitored(Value(), script[i..]) == Monitored(Monitor(old(quenf), 0, true, old(saved)), script)
        decreases |script| - i
      {
        assert script[i..][0] == script[i] && script[i..][1..] == script[i+1..];
        OnePass(script[i]);
        i := i + 1;
      }
      if errcnt >= MAX_ERRORS { running := false; }
    }
  }
}
