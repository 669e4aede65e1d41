/** Descriptor tables: how the host opens its pipes and how each child's two `dup2` calls, run in a copy
    of the host's table, put the right pipe ends where the child looks for them. */
module Descriptors {
  import opened Bytes
  import opened Transport

  /** What a descriptor refers to: an end of one of the run's pipes, or something opened earlier. */
  datatype File = Pipe(end: End) | Other(id: nat)

  type Table = map<nat, File>

  function UsedFrom(t: Table, n: nat): set<nat> {
    set k <- t.Keys | k >= n
  }

  /** The lowest unused descriptor that is not below `n`. */
  function LowestFree(t: Table, n: nat): (r: nat)
    ensures n <= r && r !in t && forall k | n <= k < r :: k in t
    decreases UsedFrom(t, n)
  {
    if n !in t then n
    else
      assert UsedFrom(t, n) == {n} + UsedFrom(t, n + 1);
      LowestFree(t, n + 1)
  }

  datatype Opened = Opened(table: Table, r: nat, w: nat)

  /** pipe(2), for the pipe that will be number `p`. No descriptor is marked close-on-exec. */
  function OpenPipe(t: Table, p: nat): Opened {
    var r := LowestFree(t, 0);
    var t1 := t[r := Pipe(ReadEnd(p))];
    var w := LowestFree(t1, 0);
    Opened(t1[w := Pipe(WriteEnd(p))], r, w)
  }

  /** dup2(2): fails on an unused source. */
  function Dup2(t: Table, source: nat, target: nat): Option<Table> {
    if source !in t then None else Some(t[target := t[source]])
  }

  /** The child's hook between fork and exec. */
  function DupTwice(t: Table, s0: nat, t0: nat, s1: nat, t1: nat): Option<Table> {
    match Dup2(t, s0, t0)
    case None => None
    case Some(u) => Dup2(u, s1, t1)
  }

  function Ends(t: Table): set<End> {
    set fd | fd in t && t[fd].Pipe? :: t[fd].end
  }

  /** The three tables of a Mode B run: host, bytes reader, inference process. */
  datatype ModeBTables = ModeBTables(host: Table, bytes: Option<Table>, priv: Option<Table>)

  function SetUpModeB(t: Table): ModeBTables {
    var h2b := OpenPipe(t, 0);
    var b2p := OpenPipe(h2b.table, 1);
    var p2h := OpenPipe(b2p.table, 2);
    ModeBTables(
      p2h.table - {h2b.r, b2p.r, b2p.w, p2h.w},
      DupTwice(p2h.table, h2b.r, 3, b2p.w, 7),
      DupTwice(p2h.table, b2p.r, 3, p2h.w, 5))
  }

  datatype ModeATables = ModeATables(host: Table, reader: Option<Table>)

  function SetUpModeA(t: Table): ModeATables {
    var stdin := OpenPipe(t, 0);
    var report := OpenPipe(stdin.table, 1);
    ModeATables(
      report.table - {stdin.r, report.w},
      DupTwice(report.table, stdin.r, 3, report.w, 5))
  }

  /** A table before set-up: the standard streams are open and no pipe of the run is. */
  predicate Initial(t: Table) {
    0 in t && 1 in t && 2 in t && forall fd <- t :: t[fd].Other?
  }

  lemma {:induction false} OpenedInOrder(t: Table, p: nat, low: nat)
    requires forall k: nat | k < low :: k in t
    ensures var o := OpenPipe(t, p);
            && low <= o.r < o.w && o.r !in t && o.w !in t
            && o.table == t[o.r := Pipe(ReadEnd(p))][o.w := Pipe(WriteEnd(p))]
            && forall k: nat | k <= o.w :: k in o.table
  {
    var o := OpenPipe(t, p);
    assert o.r in t[o.r := Pipe(ReadEnd(p))];
  }

  function EndIf(held: bool, e: End): set<End> {
    if held then {e} else {}
  }

  /** The host's two descriptors, once it has closed the others. */
  lemma {:induction false} LeftTwo(host: Table, w: nat, r: nat, p: nat)
    requires w in host && host[w] == Pipe(WriteEnd(0)) && r in host && host[r] == Pipe(ReadEnd(p))
    requires forall fd | fd in host && host[fd].Pipe? :: fd == w || fd == r
    ensures Ends(host) == {WriteEnd(0), ReadEnd(p)}
  {
    hide Ends;
    EndsListed(host, [w, r], [WriteEnd(0), ReadEnd(p)]);
  }

  lemma {:induction false} ReaderEnds(all: Table, u: Table, r0: nat, w0: nat, r1: nat, w1: nat)
    requires 3 <= r0 < w0 < r1 < w1
    requires forall fd | fd in all && all[fd].Pipe? :: fd in {r0, w0, r1, w1}
    requires r0 in all && w0 in all && r1 in all && all[r0] == Pipe(ReadEnd(0)) && all[w0] == Pipe(WriteEnd(0))
    requires w1 in all && all[r1] == Pipe(ReadEnd(1)) && all[w1] == Pipe(WriteEnd(1))
    requires u == all[3 := Pipe(ReadEnd(0))][5 := Pipe(WriteEnd(1))]
    ensures Ends(u) == {ReadEnd(0), WriteEnd(1)} + EndIf(w0 != 5, WriteEnd(0)) + EndIf(r1 != 5, ReadEnd(1))
  {
    hide Ends;
    EndsListed(u, [3, 5, r0, w0, r1, w1],
               [ReadEnd(0), WriteEnd(1), if r0 == 5 then WriteEnd(1) else ReadEnd(0),
                if w0 == 5 then WriteEnd(1) else WriteEnd(0), if r1 == 5 then WriteEnd(1) else ReadEnd(1),
                WriteEnd(1)]);
  }

  /** In Mode A the reader finds its input on descriptor 3 and its report pipe on 5, whatever else was
      open; the host is left with the other two ends and no more. The reader also inherits each of those two,
      unless it was opened as the very descriptor that the report pipe is moved to. */
  lemma {:induction false} ModeAIsWired(t: Table)
    requires Initial(t)
    ensures var s := SetUpModeA(t);
            var stdin := OpenPipe(t, 0);
            && s.reader.Some?
            && 3 in s.reader.value && s.reader.value[3] == Pipe(ReadEnd(0))
            && 5 in s.reader.value && s.reader.value[5] == Pipe(WriteEnd(1))
            && (forall fd <- {0, 1, 2} :: fd in s.reader.value && s.reader.value[fd] == t[fd])
            && Ends(s.host) == {WriteEnd(0), ReadEnd(1)}
            && Ends(s.reader.value)
               == {ReadEnd(0), WriteEnd(1)} + EndIf(stdin.w != 5, WriteEnd(0))
                  + EndIf(OpenPipe(stdin.table, 1).r != 5, ReadEnd(1))
  {
    hide OpenPipe, LowestFree, Ends;
    var stdin := OpenPipe(t, 0);
    OpenedInOrder(t, 0, 3);
    var report := OpenPipe(stdin.table, 1);
    OpenedInOrder(stdin.table, 1, stdin.w + 1);
    LeftTwo(SetUpModeA(t).host, stdin.w, report.r, 1);
    ReaderEnds(report.table, SetUpModeA(t).reader.value, stdin.r, stdin.w, report.r, report.w);
  }

  /** The ends of a table, read off a list of all descriptors that refer to one. */
  lemma {:induction false} EndsListed(t: Table, fds: seq<nat>, es: seq<End>)
    requires |fds| == |es| && forall i: nat | i < |fds| :: fds[i] in t && t[fds[i]] == Pipe(es[i])
    requires forall fd | fd in t && t[fd].Pipe? :: fd in fds
    ensures Ends(t) == set e | e in es
  {
    forall e | e in es
      ensures e in Ends(t)
    {
      var i: nat :| i < |es| && es[i] == e;
      assert t[fds[i]].end == e;
    }
    forall e | e in Ends(t)
      ensures e in es
    {
      var fd :| fd in t && t[fd].Pipe? && t[fd].end == e;
      var i: nat :| i < |fds| && fds[i] == fd;
      assert es[i] == e;
    }
  }

  /** In Mode B each child finds its input on descriptor 3 and its output on 7 or 5, and no `dup2`
      overwrites a descriptor the other still needs. The ends each child holds in all, copies included: the
      bytes reader those six but for copies that were opened as 7, the inference process those six but for
      the two ends of the bytes reader's input, where its own `dup2` calls hit them. */
  lemma {:induction false} ModeBIsWired(t: Table)
    requires Initial(t)
    ensures var s := SetUpModeB(t);
            var h2b := OpenPipe(t, 0);
            var b2p := OpenPipe(h2b.table, 1);
            var p2h := OpenPipe(b2p.table, 2);
            && s.bytes.Some? && s.priv.Some?
            && 3 in s.bytes.value && s.bytes.value[3] == Pipe(ReadEnd(0))
            && 7 in s.bytes.value && s.bytes.value[7] == Pipe(WriteEnd(1))
            && 3 in s.priv.value && s.priv.value[3] == Pipe(ReadEnd(1))
            && 5 in s.priv.value && s.priv.value[5] == Pipe(WriteEnd(2))
            && (forall fd <- {0, 1, 2} :: fd in s.bytes.value && s.bytes.value[fd] == t[fd]
                                       && fd in s.priv.value && s.priv.value[fd] == t[fd])
            && Ends(s.host) == {WriteEnd(0), ReadEnd(2)}
            && Ends(s.bytes.value)
               == {ReadEnd(0), WriteEnd(1), WriteEnd(2)} + EndIf(h2b.w != 7, WriteEnd(0))
                  + EndIf(b2p.r != 7, ReadEnd(1)) + EndIf(p2h.r != 7, ReadEnd(2))
            && Ends(s.priv.value)
               == {ReadEnd(1), WriteEnd(1), WriteEnd(2), ReadEnd(2)}
                  + EndIf(h2b.r != 3 && h2b.r != 5, ReadEnd(0)) + EndIf(h2b.w != 5, WriteEnd(0))
  {
    hide Ends, OpenPipe;
    BytesIsWired(t);
    PrivIsWired(t);
    HostIsWired(t);
  }

  /** The three pipes of Mode B, opened in order over the lowest free descriptors. */
  lemma {:induction false} ModeBPipes(t: Table)
    requires Initial(t)
    ensures var h2b := OpenPipe(t, 0);
            var b2p := OpenPipe(h2b.table, 1);
            var p2h := OpenPipe(b2p.table, 2);
            && 3 <= h2b.r < h2b.w < b2p.r < b2p.w < p2h.r < p2h.w
            && p2h.table == t[h2b.r := Pipe(ReadEnd(0))][h2b.w := Pipe(WriteEnd(0))]
                             [b2p.r := Pipe(ReadEnd(1))][b2p.w := Pipe(WriteEnd(1))]
                             [p2h.r := Pipe(ReadEnd(2))][p2h.w := Pipe(WriteEnd(2))]
  {
    hide OpenPipe, LowestFree;
    var h2b := OpenPipe(t, 0);
    OpenedInOrder(t, 0, 3);
    var b2p := OpenPipe(h2b.table, 1);
    OpenedInOrder(h2b.table, 1, h2b.w + 1);
    OpenedInOrder(b2p.table, 2, b2p.w + 1);
  }

  /** A table that holds all six ends and no others. */
  ghost predicate AllSix(all: Table, r0: nat, w0: nat, r1: nat, w1: nat, r2: nat, w2: nat) {
    && 3 <= r0 < w0 < r1 < w1 < r2 < w2
    && (forall fd | fd in all && all[fd].Pipe? :: fd in {r0, w0, r1, w1, r2, w2})
    && r0 in all && w0 in all && all[r0] == Pipe(ReadEnd(0)) && all[w0] == Pipe(WriteEnd(0))
    && r1 in all && w1 in all && all[r1] == Pipe(ReadEnd(1)) && all[w1] == Pipe(WriteEnd(1))
    && r2 in all && w2 in all && all[r2] == Pipe(ReadEnd(2)) && all[w2] == Pipe(WriteEnd(2))
  }

  lemma {:induction false} ModeBHoldsAll(t: Table)
    requires Initial(t)
    ensures var h2b := OpenPipe(t, 0);
            var b2p := OpenPipe(h2b.table, 1);
            var p2h := OpenPipe(b2p.table, 2);
            && AllSix(p2h.table, h2b.r, h2b.w, b2p.r, b2p.w, p2h.r, p2h.w)
            && 0 in p2h.table && 1 in p2h.table && 2 in p2h.table
            && p2h.table[0] == t[0] && p2h.table[1] == t[1] && p2h.table[2] == t[2]
  {
    hide OpenPipe;
    ModeBPipes(t);
  }

  lemma {:induction false} BytesEnds(all: Table, u: Table, r0: nat, w0: nat, r1: nat, w1: nat, r2: nat, w2: nat)
    requires AllSix(all, r0, w0, r1, w1, r2, w2)
    requires u == all[3 := Pipe(ReadEnd(0))][7 := Pipe(WriteEnd(1))]
    ensures Ends(u) == {ReadEnd(0), WriteEnd(1), WriteEnd(2)} + EndIf(w0 != 7, WriteEnd(0))
                       + EndIf(r1 != 7, ReadEnd(1)) + EndIf(r2 != 7, ReadEnd(2))
  {
    hide Ends;
    EndsListed(u, [3, 7, r0, w0, r1, w1, r2, w2],
               [ReadEnd(0), WriteEnd(1), if r0 == 7 then WriteEnd(1) else ReadEnd(0),
                if w0 == 7 then WriteEnd(1) else WriteEnd(0), if r1 == 7 then WriteEnd(1) else ReadEnd(1),
                WriteEnd(1), if r2 == 7 then WriteEnd(1) else ReadEnd(2), WriteEnd(2)]);
  }

  lemma {:induction false} PrivEnds(all: Table, u: Table, r0: nat, w0: nat, r1: nat, w1: nat, r2: nat, w2: nat)
    requires AllSix(all, r0, w0, r1, w1, r2, w2)
    requires u == all[3 := Pipe(ReadEnd(1))][5 := Pipe(WriteEnd(2))]
    ensures Ends(u) == {ReadEnd(1), WriteEnd(1), WriteEnd(2), ReadEnd(2)}
                       + EndIf(r0 != 3 && r0 != 5, ReadEnd(0)) + EndIf(w0 != 5, WriteEnd(0))
  {
    hide Ends;
    EndsListed(u, [3, 5, r0, w0, r1, w1, r2, w2],
               [ReadEnd(1), WriteEnd(2), if r0 == 3 then ReadEnd(1) else if r0 == 5 then WriteEnd(2) else ReadEnd(0),
                if w0 == 5 then WriteEnd(2) else WriteEnd(0), if r1 == 5 then WriteEnd(2) else ReadEnd(1),
                WriteEnd(1), ReadEnd(2), WriteEnd(2)]);
  }

  lemma {:induction false} BytesIsWired(t: Table)
    requires Initial(t)
    ensures var s := SetUpModeB(t);
            var h2b := OpenPipe(t, 0);
            var b2p := OpenPipe(h2b.table, 1);
            var p2h := OpenPipe(b2p.table, 2);
            && s.bytes.Some?
            && 3 in s.bytes.value && s.bytes.value[3] == Pipe(ReadEnd(0))
            && 7 in s.bytes.value && s.bytes.value[7] == Pipe(WriteEnd(1))
            && (forall fd <- {0, 1, 2} :: fd in s.bytes.value && s.bytes.value[fd] == t[fd])
            && Ends(s.bytes.value)
               == {ReadEnd(0), WriteEnd(1), WriteEnd(2)} + EndIf(h2b.w != 7, WriteEnd(0))
                  + EndIf(b2p.r != 7, ReadEnd(1)) + EndIf(p2h.r != 7, ReadEnd(2))
  {
    hide OpenPipe, Ends;
    ModeBHoldsAll(t);
    var h2b := OpenPipe(t, 0);
    var b2p := OpenPipe(h2b.table, 1);
    var p2h := OpenPipe(b2p.table, 2);
    BytesEnds(p2h.table, SetUpModeB(t).bytes.value, h2b.r, h2b.w, b2p.r, b2p.w, p2h.r, p2h.w);
  }

  lemma {:induction false} PrivIsWired(t: Table)
    requires Initial(t)
    ensures var s := SetUpModeB(t);
            var h2b := OpenPipe(t, 0);
            && s.priv.Some?
            && 3 in s.priv.value && s.priv.value[3] == Pipe(ReadEnd(1))
            && 5 in s.priv.value && s.priv.value[5] == Pipe(WriteEnd(2))
            && (forall fd <- {0, 1, 2} :: fd in s.priv.value && s.priv.value[fd] == t[fd])
            && Ends(s.priv.value)
               == {ReadEnd(1), WriteEnd(1), WriteEnd(2), ReadEnd(2)}
                  + EndIf(h2b.r != 3 && h2b.r != 5, ReadEnd(0)) + EndIf(h2b.w != 5, WriteEnd(0))
  {
    hide OpenPipe, Ends;
    ModeBHoldsAll(t);
    var h2b := OpenPipe(t, 0);
    var b2p := OpenPipe(h2b.table, 1);
    var p2h := OpenPipe(b2p.table, 2);
    PrivEnds(p2h.table, SetUpModeB(t).priv.value, h2b.r, h2b.w, b2p.r, b2p.w, p2h.r, p2h.w);
  }

  lemma {:induction false} HostIsWired(t: Table)
    requires Initial(t)
    ensures Ends(SetUpModeB(t).host) == {WriteEnd(0), ReadEnd(2)}
  {
    hide OpenPipe, Ends;
    ModeBPipes(t);
    var h2b := OpenPipe(t, 0);
    var p2h := OpenPipe(OpenPipe(h2b.table, 1).table, 2);
    LeftTwo(SetUpModeB(t).host, h2b.w, p2h.r, 2);
  }
}
