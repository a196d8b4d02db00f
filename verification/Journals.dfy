/** The hash-chained deployment journal: torn-write repair and recovery. */
module Journals {
  import opened Text
  import opened LiveReplacement

  newtype Byte = x: int | 0 <= x < 256

  const NEWLINE: Byte := 10

  /** The descriptors, digests and error text of a record are its body. */
  datatype Record = Record(transaction: string, stage: Stage, status: Status, body: string)

  datatype Entry = Entry(sequence: nat, at: nat, previousHash: string, record: Record, hash: string)

  /** How an entry is written down as one line without its line feed, how a line
      with its line feed is read back, and the digest of an entry. */
  datatype Codec = Codec(encode: Entry -> seq<Byte>, decode: seq<Byte> -> Option<Entry>, digest: Entry -> string)
  {
    function Line(e: Entry): seq<Byte> { encode(e) + [NEWLINE] }

    /** The hash field itself is left out of the digest. */
    function EntryHash(e: Entry): string { digest(e.(hash := "")) }

    /** What is assumed of the encoding: it is one line, and can be read back. */
    ghost predicate Faithful()
    {
      forall e :: NEWLINE !in encode(e) && decode(Line(e)) == Some(e)
    }
  }

  // ------------------------------------------------------------ specification

  function LastHash(entries: seq<Entry>): string { if entries == [] then "" else entries[|entries| - 1].hash }

  /** e is a sound continuation of the chain. */
  predicate Continues(c: Codec, entries: seq<Entry>, e: Entry)
  {
    e.sequence == |entries| + 1 && e.previousHash == LastHash(entries) && c.EntryHash(e) == e.hash
  }

  ghost predicate Chained(c: Codec, entries: seq<Entry>)
  {
    forall i :: 0 <= i < |entries| ==> Continues(c, entries[..i], entries[i])
  }

  /** The first line feed is at k. */
  ghost predicate FirstAt(file: seq<Byte>, k: nat)
  {
    k < |file| && file[k] == NEWLINE && forall i :: 0 <= i < k ==> file[i] != NEWLINE
  }

  ghost function FirstNewline(file: seq<Byte>): (k: nat)
    requires NEWLINE in file
    ensures FirstAt(file, k)
  {
    if file[0] == NEWLINE then 0 else FirstNewline(file[1..]) + 1
  }

  /** The complete lines, each with its line feed. */
  ghost function Lines(file: seq<Byte>): seq<seq<Byte>>
    decreases |file|
  {
    if NEWLINE in file then var k := FirstNewline(file); [file[..k + 1]] + Lines(file[k + 1..]) else []
  }

  ghost function Concat(lines: seq<seq<Byte>>): seq<Byte>
  {
    if lines == [] then [] else lines[0] + Concat(lines[1..])
  }

  /** The entries of the lines, if every one is readable and continues the chain. */
  ghost function Parsed(c: Codec, lines: seq<seq<Byte>>): Option<seq<Entry>>
  {
    if lines == [] then Some([])
    else
      var before, e := Parsed(c, lines[..|lines| - 1]), c.decode(lines[|lines| - 1]);
      if before.Some? && e.Some? && Continues(c, before.value, e.value) then Some(before.value + [e.value]) else None
  }

  /** What a file holds once a torn last line is dropped. */
  ghost function Loaded(c: Codec, file: seq<Byte>): Option<seq<Entry>> { Parsed(c, Lines(file)) }

  /** The file does not end in the middle of a line. */
  ghost predicate Whole(file: seq<Byte>) { file == [] || file[|file| - 1] == NEWLINE }

  predicate IsFinal(status: Status) { status == Committed || status == RolledBack }

  /** The transactions with a committed or rolled-back record at or after place i. */
  ghost function EndedFrom(entries: seq<Entry>, i: nat): set<string>
  {
    set j | i <= j < |entries| && IsFinal(entries[j].record.status) :: entries[j].record.transaction
  }

  /** The last entry of a transaction that never ended. */
  ghost predicate LastOfOpen(entries: seq<Entry>, i: nat)
  {
    && i < |entries| && entries[i].record.transaction !in EndedFrom(entries, 0)
    && forall j :: i < j < |entries| ==> entries[j].record.transaction != entries[i].record.transaction
  }

  /** The list is the last entries of the transactions that never ended, latest first. */
  ghost predicate Interrupted(entries: seq<Entry>, incomplete: seq<Entry>, places: seq<nat>)
  {
    && |places| == |incomplete|
    && (forall k :: 0 <= k < |places| ==> LastOfOpen(entries, places[k]) && incomplete[k] == entries[places[k]])
    && (forall k, l :: 0 <= k < l < |places| ==> places[k] > places[l])
    && (forall i :: LastOfOpen(entries, i) ==> i in places)
  }

  /** The last committed record at or after place i, if there is one. */
  ghost predicate LastCommit(entries: seq<Entry>, i: nat, found: Option<Entry>)
  {
    match found
    case None => forall j :: i <= j < |entries| ==> entries[j].record.status != Committed
    case Some(e) => exists k :: i <= k < |entries| && e == entries[k] && e.record.status == Committed &&
                                forall j :: k < j < |entries| ==> entries[j].record.status != Committed
  }

  /** A transaction that was recorded and never ended is listed exactly once, a
      transaction that ended not at all. */
  lemma {:induction false} InterruptedExactly(entries: seq<Entry>, incomplete: seq<Entry>, places: seq<nat>, tx: string)
    requires Interrupted(entries, incomplete, places)
    ensures (exists k :: 0 <= k < |incomplete| && incomplete[k].record.transaction == tx) <==>
            (exists i :: 0 <= i < |entries| && entries[i].record.transaction == tx) && tx !in EndedFrom(entries, 0)
    ensures forall k, l :: 0 <= k < l < |incomplete| ==> incomplete[k].record.transaction != incomplete[l].record.transaction
  {
    hide EndedFrom;
    forall k, l | 0 <= k < l < |incomplete| ensures incomplete[k].record.transaction != incomplete[l].record.transaction {
      assert LastOfOpen(entries, places[k]) && LastOfOpen(entries, places[l]);
    }
    if (exists i :: 0 <= i < |entries| && entries[i].record.transaction == tx) && tx !in EndedFrom(entries, 0) {
      var i := LastPlace(entries, tx);
      assert LastOfOpen(entries, i);
      var k :| 0 <= k < |places| && places[k] == i;
      assert incomplete[k].record.transaction == tx;
    }
    forall k | 0 <= k < |incomplete|
      ensures incomplete[k].record.transaction !in EndedFrom(entries, 0) && places[k] < |entries| && entries[places[k]] == incomplete[k]
    {
      assert LastOfOpen(entries, places[k]);
    }
  }

  lemma {:induction false} LastPlace(entries: seq<Entry>, tx: string) returns (i: nat)
    requires exists i :: 0 <= i < |entries| && entries[i].record.transaction == tx
    ensures i < |entries| && entries[i].record.transaction == tx
    ensures forall j :: i < j < |entries| ==> entries[j].record.transaction != tx
  {
    i := |entries| - 1;
    while entries[i].record.transaction != tx
      invariant i < |entries| && forall j :: i < j < |entries| ==> entries[j].record.transaction != tx
      decreases i
    {
      i := i - 1;
    }
  }

  // ------------------------------------------------------------- facts about lines

  lemma {:induction false} FirstIsUnique(file: seq<Byte>, k: nat)
    requires FirstAt(file, k)
    ensures NEWLINE in file && FirstNewline(file) == k
  {
    hide FirstNewline;
    assert file[k] in file;
    var f := FirstNewline(file);
    assert file[f] == NEWLINE && file[k] == NEWLINE;
  }

  lemma {:induction false} LinesStep(file: seq<Byte>, k: nat)
    requires FirstAt(file, k)
    ensures Lines(file) == [file[..k + 1]] + Lines(file[k + 1..])
  {
    hide FirstNewline, FirstAt;
    FirstIsUnique(file, k);
    FirstInside(file, k);
  }

  lemma {:induction false} FirstInside(file: seq<Byte>, k: nat)
    requires FirstAt(file, k)
    ensures k < |file|
  {
  }

  lemma {:induction false} FirstOfBoth(a: seq<Byte>, b: seq<Byte>, k: nat)
    requires FirstAt(a, k) && Whole(a)
    ensures FirstAt(a + b, k) && (a + b)[..k + 1] == a[..k + 1] && (a + b)[k + 1..] == a[k + 1..] + b
    ensures Whole(a[k + 1..])
  {
  }

  /** Lines of a whole file and of what follows it. */
  lemma {:induction false} LinesAppend(a: seq<Byte>, b: seq<Byte>)
    requires Whole(a)
    ensures Lines(a + b) == Lines(a) + Lines(b)
    decreases |a|
  {
    hide *;
    if |a| == 0 {
      LinesOfNothing(a, b);
    } else {
      var k := WholeHasFirst(a);
      FirstOfBoth(a, b, k);
      LinesStep(a, k);
      LinesStep(a + b, k);
      LinesAppend(a[k + 1..], b);
      Regroup(a[..k + 1], Lines(a[k + 1..]), Lines(b));
    }
  }

  lemma {:induction false} LinesOfNothing(a: seq<Byte>, b: seq<Byte>)
    requires |a| == 0
    ensures Lines(a + b) == Lines(a) + Lines(b)
  {
    assert a + b == b;
    NoLines(a, 0);
    assert [] + Lines(b) == Lines(b);
  }

  lemma {:induction false} Regroup(first: seq<Byte>, middle: seq<seq<Byte>>, last: seq<seq<Byte>>)
    ensures [first] + (middle + last) == ([first] + middle) + last
  {
  }

  lemma {:induction false} WholeHasFirst(a: seq<Byte>) returns (k: nat)
    requires Whole(a) && |a| > 0
    ensures FirstAt(a, k)
  {
    assert a[|a| - 1] in a;
    k := FirstNewline(a);
  }

  lemma {:induction false} LinesOfLine(c: Codec, e: Entry)
    requires c.Faithful()
    ensures Lines(c.Line(e)) == [c.Line(e)] && Whole(c.Line(e))
  {
    var line := c.Line(e);
    var k := |line| - 1;
    forall i | 0 <= i < k ensures line[i] != NEWLINE { assert line[i] in c.encode(e); }
    LinesStep(line, k);
    assert line[..k + 1] == line && line[k + 1..] == [];
  }

  /** The m-th line is the last that ends before the cut. */
  ghost predicate Kept(lines: seq<seq<Byte>>, cut: nat, m: nat)
  {
    && m <= |lines| && |Concat(lines[..m])| <= cut
    && (m < |lines| ==> cut < |Concat(lines[..m + 1])|)
  }

  /** A cut keeps the lines that end before it. */
  lemma {:induction false} CutLines(file: seq<Byte>, cut: nat) returns (m: nat)
    requires cut <= |file|
    ensures Kept(Lines(file), cut, m) && Lines(file[..cut]) == Lines(file)[..m]
    decreases |file|
  {
    hide Lines, Kept;
    m := 0;
    if NEWLINE !in file {
      NoLines(file, |file|);
      NoLines(file, cut);
      KeptNone([], cut);
    } else {
      var k := FirstNewline(file);
      LinesStep(file, k);
      if cut <= k {
        NoLines(file, cut);
        KeptFirst(file[..k + 1], Lines(file[k + 1..]), cut);
      } else {
        hide *;
        var more := CutLines(file[k + 1..], cut - k - 1);
        CutRest(file, k, cut);
        LinesStep(file[..cut], k);
        m := more + 1;
        KeptBound(Lines(file[k + 1..]), cut - k - 1, more);
        KeptMore(file[..k + 1], Lines(file[k + 1..]), cut, more);
        TakeMore(file[..k + 1], Lines(file[k + 1..]), more);
      }
    }
  }

  lemma {:induction false} CutRest(file: seq<Byte>, k: nat, cut: nat)
    requires FirstAt(file, k) && k < cut <= |file|
    ensures FirstAt(file[..cut], k) && file[..cut][..k + 1] == file[..k + 1] && |file[..k + 1]| == k + 1
    ensures file[..cut][k + 1..] == file[k + 1..][..cut - k - 1]
  {
  }

  lemma {:induction false} NoLines(file: seq<Byte>, cut: nat)
    requires cut <= |file| && forall i :: 0 <= i < cut ==> file[i] != NEWLINE
    ensures Lines(file[..cut]) == []
    ensures cut == |file| ==> Lines(file) == []
  {
    assert cut == |file| ==> file[..cut] == file;
  }

  lemma {:induction false} KeptBound(lines: seq<seq<Byte>>, cut: nat, m: nat)
    requires Kept(lines, cut, m)
    ensures m <= |lines|
  {
  }

  lemma {:induction false} KeptNone(lines: seq<seq<Byte>>, cut: nat)
    requires lines == []
    ensures Kept(lines, cut, 0) && lines[..0] == []
  {
  }

  lemma {:induction false} KeptFirst(first: seq<Byte>, rest: seq<seq<Byte>>, cut: nat)
    requires cut < |first|
    ensures Kept([first] + rest, cut, 0) && ([first] + rest)[..0] == []
  {
    FirstConcat(first, rest, 0);
  }

  lemma {:induction false} KeptMore(first: seq<Byte>, rest: seq<seq<Byte>>, cut: nat, m: nat)
    requires |first| <= cut && Kept(rest, cut - |first|, m)
    ensures Kept([first] + rest, cut, m + 1)
  {
    hide Concat;
    FirstConcat(first, rest, m);
    if m < |rest| { FirstConcat(first, rest, m + 1); }
  }

  lemma {:induction false} TakeMore(first: seq<Byte>, rest: seq<seq<Byte>>, m: nat)
    requires m <= |rest|
    ensures ([first] + rest)[..m + 1] == [first] + rest[..m]
  {
  }

  lemma {:induction false} FirstConcat(first: seq<Byte>, rest: seq<seq<Byte>>, m: nat)
    requires m <= |rest|
    ensures Concat(([first] + rest)[..m + 1]) == first + Concat(rest[..m])
  {
    assert ([first] + rest)[..m + 1] == [first] + rest[..m];
  }

  /** What is read from a prefix of the lines is a prefix of what is read. */
  lemma {:induction false} ParsedPrefix(c: Codec, lines: seq<seq<Byte>>, m: nat)
    requires m <= |lines| && Parsed(c, lines).Some?
    ensures |Parsed(c, lines).value| == |lines| && Parsed(c, lines[..m]) == Some(Parsed(c, lines).value[..m])
  {
    if m < |lines| {
      ParsedPrefix(c, lines[..|lines| - 1], m);
      assert lines[..|lines| - 1][..m] == lines[..m];
      assert Parsed(c, lines).value[..m] == Parsed(c, lines[..|lines| - 1]).value[..m];
    } else {
      assert lines[..m] == lines;
      if lines != [] { ParsedPrefix(c, lines[..|lines| - 1], 0); }
      assert Parsed(c, lines).value[..m] == Parsed(c, lines).value;
    }
  }

  lemma {:induction false} ParsedIsChained(c: Codec, lines: seq<seq<Byte>>)
    requires Parsed(c, lines).Some?
    ensures Chained(c, Parsed(c, lines).value)
  {
    if lines != [] {
      var front := lines[..|lines| - 1];
      ParsedIsChained(c, front);
      var before, all := Parsed(c, front).value, Parsed(c, lines).value;
      forall i | 0 <= i < |all| ensures Continues(c, all[..i], all[i]) {
        assert all[..i] == if i < |before| then before[..i] else before;
      }
    }
  }

  // ------------------------------------------------------------- what the chain is for

  /** The k-th entries from the end differ and have one digest. */
  ghost predicate CollideAt(c: Codec, a: seq<Entry>, b: seq<Entry>, k: nat)
    requires k < |a| && k < |b|
  {
    var e, f := a[|a| - 1 - k].(hash := ""), b[|b| - 1 - k].(hash := "");
    e != f && c.digest(e) == c.digest(f)
  }

  ghost predicate Collide(c: Codec, a: seq<Entry>, b: seq<Entry>) { exists k :: 0 <= k < |a| && k < |b| && CollideAt(c, a, b, k) }

  /** The last hash pins the journal: two chains that end in the same hash are
      the same, entry by entry, or show a collision of the digest. */
  lemma {:induction false} LastHashPinsJournal(c: Codec, a: seq<Entry>, b: seq<Entry>)
    requires Chained(c, a) && Chained(c, b) && a != [] && b != [] && LastHash(a) == LastHash(b)
    ensures a == b || Collide(c, a, b)
  {
    hide Chained, LastHash, CollideAt;
    var m, n := |a| - 1, |b| - 1;
    LastEntryPinned(c, a, b);
    if !CollideAt(c, a, b, 0) {
      if m > 0 {
        ChainPrefix(c, a, m);
        ChainPrefix(c, b, m);
        LastHashPinsJournal(c, a[..m], b[..m]);
        if Collide(c, a[..m], b[..m]) {
          var k :| 0 <= k < m && CollideAt(c, a[..m], b[..m], k);
          CollideEarlier(c, a, b, k);
        }
      }
      assert a == a[..m] + [a[m]] && b == b[..n] + [b[n]];
    }
  }

  lemma {:induction false} CollideEarlier(c: Codec, a: seq<Entry>, b: seq<Entry>, k: nat)
    requires k + 1 < |a| && k + 1 < |b|
    ensures CollideAt(c, a[..|a| - 1], b[..|b| - 1], k) <==> CollideAt(c, a, b, k + 1)
  {
  }

  lemma {:induction false} LastEntryPinned(c: Codec, a: seq<Entry>, b: seq<Entry>)
    requires Chained(c, a) && Chained(c, b) && a != [] && b != [] && LastHash(a) == LastHash(b)
    ensures CollideAt(c, a, b, 0) || (|a| == |b| && a[|a| - 1] == b[|b| - 1] && LastHash(a[..|a| - 1]) == LastHash(b[..|b| - 1]))
  {
    var m, n := |a| - 1, |b| - 1;
    assert Continues(c, a[..m], a[m]) && Continues(c, b[..n], b[n]);
    assert c.digest(a[m].(hash := "")) == c.digest(b[n].(hash := ""));
  }

  lemma {:induction false} ChainPrefix(c: Codec, a: seq<Entry>, m: nat)
    requires Chained(c, a) && m <= |a|
    ensures Chained(c, a[..m])
  {
    forall i | 0 <= i < m ensures Continues(c, a[..m][..i], a[..m][i]) {
      assert a[..m][..i] == a[..i];
    }
  }

  /** So do two files: whatever loads with the same last hash loads the same. */
  lemma {:induction false} SameHashSameEntries(c: Codec, f: seq<Byte>, g: seq<Byte>)
    requires Loaded(c, f).Some? && Loaded(c, g).Some?
    requires Loaded(c, f).value != [] && Loaded(c, g).value != [] && LastHash(Loaded(c, f).value) == LastHash(Loaded(c, g).value)
    ensures Loaded(c, f) == Loaded(c, g) || Collide(c, Loaded(c, f).value, Loaded(c, g).value)
  {
    hide Lines, Parsed, Chained, Collide;
    ParsedIsChained(c, Lines(f));
    ParsedIsChained(c, Lines(g));
    LastHashPinsJournal(c, Loaded(c, f).value, Loaded(c, g).value);
  }

  // ------------------------------------------------------------- main facts

  /** A record appended to a whole file is what is read next. */
  lemma {:induction false} AppendedIsLoaded(c: Codec, file: seq<Byte>, entries: seq<Entry>, e: Entry)
    requires c.Faithful() && Whole(file) && Loaded(c, file) == Some(entries) && Continues(c, entries, e)
    ensures Whole(file + c.Line(e)) && Loaded(c, file + c.Line(e)) == Some(entries + [e])
  {
    hide Lines;
    LinesAppend(file, c.Line(e));
    LinesOfLine(c, e);
    var lines := Lines(file) + [c.Line(e)];
    assert lines[..|lines| - 1] == Lines(file);
  }

  /** Cut anywhere, a journal gives back exactly the entries whose lines are
      whole before the cut. */
  lemma {:induction false} CrashRecovery(c: Codec, file: seq<Byte>, entries: seq<Entry>, cut: nat) returns (m: nat)
    requires Loaded(c, file) == Some(entries) && cut <= |file|
    ensures m <= |entries| == |Lines(file)| && Loaded(c, file[..cut]) == Some(entries[..m]) && Kept(Lines(file), cut, m)
  {
    hide Lines;
    m := CutLines(file, cut);
    ParsedPrefix(c, Lines(file), m);
  }

  /** The entry that Record writes next. */
  function NextEntry(c: Codec, entries: seq<Entry>, r: Record, at: nat): (e: Entry)
    ensures Continues(c, entries, e) && e.record == r
  {
    var e := Entry(|entries| + 1, at, LastHash(entries), r, "");
    e.(hash := c.EntryHash(e))
  }

  /** A record with the time at which it is written. */
  datatype Timed = Timed(record: Record, at: nat)

  /** The journal of a run of successful records. */
  ghost function Written(c: Codec, rs: seq<Timed>): (entries: seq<Entry>)
    ensures |entries| == |rs|
  {
    if rs == [] then []
    else
      var before, last := Written(c, rs[..|rs| - 1]), rs[|rs| - 1];
      before + [NextEntry(c, before, last.record, last.at)]
  }

  ghost function LinesOf(c: Codec, entries: seq<Entry>): seq<seq<Byte>>
  {
    if entries == [] then [] else LinesOf(c, entries[..|entries| - 1]) + [c.Line(entries[|entries| - 1])]
  }

  ghost function FileOf(c: Codec, entries: seq<Entry>): seq<Byte>
  {
    if entries == [] then [] else FileOf(c, entries[..|entries| - 1]) + c.Line(entries[|entries| - 1])
  }

  /** The file without a torn last line. */
  ghost function WholePart(file: seq<Byte>): seq<Byte> { Concat(Lines(file)) }

  /** What a run of successful records writes is read back in full. */
  lemma {:induction false} RunIsLoaded(c: Codec, rs: seq<Timed>)
    requires c.Faithful()
    ensures Whole(FileOf(c, Written(c, rs))) && Loaded(c, FileOf(c, Written(c, rs))) == Some(Written(c, rs))
    ensures forall i :: 0 <= i < |rs| ==> Written(c, rs)[i].record == rs[i].record
  {
    hide Loaded, Whole, Continues, Codec.Faithful;
    if rs == [] {
      NothingLoaded(c);
    } else {
      var front, last := rs[..|rs| - 1], rs[|rs| - 1];
      RunIsLoaded(c, front);
      var before := Written(c, front);
      var e := NextEntry(c, before, last.record, last.at);
      assert Written(c, rs)[..|rs| - 1] == before;
      AppendedIsLoaded(c, FileOf(c, before), before, e);
    }
  }

  lemma {:induction false} NothingLoaded(c: Codec)
    ensures Whole([]) && Loaded(c, []) == Some([])
  {
  }

  lemma {:induction false} WrittenPrefix(c: Codec, rs: seq<Timed>, m: nat)
    requires m <= |rs|
    ensures Written(c, rs)[..m] == Written(c, rs[..m])
  {
    if m == |rs| {
      assert rs[..m] == rs;
    } else {
      WrittenPrefix(c, rs[..|rs| - 1], m);
      assert rs[..|rs| - 1][..m] == rs[..m];
      assert Written(c, rs)[..m] == Written(c, rs[..|rs| - 1])[..m];
    }
  }

  lemma {:induction false} LinesOfFile(c: Codec, entries: seq<Entry>)
    requires c.Faithful()
    ensures Whole(FileOf(c, entries)) && Lines(FileOf(c, entries)) == LinesOf(c, entries)
  {
    hide Lines, Codec.Faithful;
    if entries == [] {
      NoLines([], 0);
    } else {
      var front, last := entries[..|entries| - 1], entries[|entries| - 1];
      LinesOfFile(c, front);
      LinesAppend(FileOf(c, front), c.Line(last));
      LinesOfLine(c, last);
    }
  }

  lemma {:induction false} LinesOfPrefix(c: Codec, entries: seq<Entry>, m: nat)
    requires m <= |entries|
    ensures |LinesOf(c, entries)| == |entries| && LinesOf(c, entries)[..m] == LinesOf(c, entries[..m])
  {
    if m == |entries| {
      assert entries[..m] == entries;
      if entries != [] { LinesOfPrefix(c, entries[..m - 1], 0); }
      assert LinesOf(c, entries)[..m] == LinesOf(c, entries);
    } else {
      var front := entries[..|entries| - 1];
      LinesOfPrefix(c, front, m);
      assert front[..m] == entries[..m];
      assert LinesOf(c, entries)[..m] == LinesOf(c, front)[..m];
    }
  }

  lemma {:induction false} ConcatAppend(a: seq<seq<Byte>>, b: seq<Byte>)
    ensures Concat(a + [b]) == Concat(a) + b
  {
    if a == [] {
      assert [] + [b] == [b] && Concat([b]) == b + Concat([]) == b;
    } else {
      ConcatAppend(a[1..], b);
      assert (a + [b])[1..] == a[1..] + [b];
      assert a[0] + (Concat(a[1..]) + b) == (a[0] + Concat(a[1..])) + b;
    }
  }

  lemma {:induction false} ConcatLinesOf(c: Codec, entries: seq<Entry>)
    ensures Concat(LinesOf(c, entries)) == FileOf(c, entries)
  {
    if entries != [] {
      ConcatLinesOf(c, entries[..|entries| - 1]);
      ConcatAppend(LinesOf(c, entries[..|entries| - 1]), c.Line(entries[|entries| - 1]));
    }
  }

  /** After any run, any cut and a repair, the file is that of a shorter run, so
      that whatever is recorded then reloads whole. */
  lemma {:induction false} CrashThenContinue(c: Codec, rs: seq<Timed>, cut: nat) returns (m: nat)
    requires c.Faithful() && cut <= |FileOf(c, Written(c, rs))|
    ensures var torn := FileOf(c, Written(c, rs))[..cut];
            && m <= |rs| && Loaded(c, torn) == Some(Written(c, rs[..m]))
            && WholePart(torn) == FileOf(c, Written(c, rs[..m])) && |WholePart(torn)| <= cut
            && (m < |rs| ==> cut < |FileOf(c, Written(c, rs[..m + 1]))|)
    ensures forall more: seq<Timed> ::
              Loaded(c, FileOf(c, Written(c, rs[..m] + more))) == Some(Written(c, rs[..m] + more))
  {
    hide *;
    var entries := Written(c, rs);
    var file := FileOf(c, entries);
    RunIsLoaded(c, rs);
    m := CutLines(file, cut);
    LinesOfFile(c, entries);
    Recovered(c, rs, cut, m);
    forall more: seq<Timed> ensures Loaded(c, FileOf(c, Written(c, rs[..m] + more))) == Some(Written(c, rs[..m] + more)) {
      RunIsLoaded(c, rs[..m] + more);
    }
  }

  lemma {:induction false} Recovered(c: Codec, rs: seq<Timed>, cut: nat, m: nat)
    requires var file := FileOf(c, Written(c, rs));
             && cut <= |file| && Lines(file) == LinesOf(c, Written(c, rs)) && Loaded(c, file) == Some(Written(c, rs))
             && Kept(Lines(file), cut, m) && Lines(file[..cut]) == Lines(file)[..m]
    ensures var torn := FileOf(c, Written(c, rs))[..cut];
            && m <= |rs| && Loaded(c, torn) == Some(Written(c, rs[..m]))
            && WholePart(torn) == FileOf(c, Written(c, rs[..m])) && |WholePart(torn)| <= cut
            && (m < |rs| ==> cut < |FileOf(c, Written(c, rs[..m + 1]))|)
  {
    hide Lines, FileOf, Written, Concat, LinesOf, Parsed;
    var entries := Written(c, rs);
    LinesOfPrefix(c, entries, 0);
    LinesOfPrefix(c, entries, m);
    ParsedPrefix(c, Lines(FileOf(c, entries)), m);
    WrittenPrefix(c, rs, m);
    ConcatLinesOf(c, entries[..m]);
    if m < |rs| {
      LinesOfPrefix(c, entries, m + 1);
      WrittenPrefix(c, rs, m + 1);
      ConcatLinesOf(c, entries[..m + 1]);
    }
  }

  /** A record whose write reached the disk but was reported as failed is read
      back all the same; and the next record, numbered alike, makes the journal
      unreadable. */
  lemma {:induction false} UnsyncedRecordBreaksReload(c: Codec, file: seq<Byte>, entries: seq<Entry>, first: Timed, second: Timed)
    requires c.Faithful() && Whole(file) && Loaded(c, file) == Some(entries)
    ensures var e, f := NextEntry(c, entries, first.record, first.at), NextEntry(c, entries, second.record, second.at);
            && Loaded(c, file + c.Line(e)) == Some(entries + [e])
            && Loaded(c, file + c.Line(e) + c.Line(f)) == None
  {
    hide Lines;
    var e, f := NextEntry(c, entries, first.record, first.at), NextEntry(c, entries, second.record, second.at);
    AppendedIsLoaded(c, file, entries, e);
    LinesAppend(file + c.Line(e), c.Line(f));
    LinesOfLine(c, f);
    var lines := Lines(file + c.Line(e)) + [c.Line(f)];
    assert lines[..|lines| - 1] == Lines(file + c.Line(e));
  }

  /** What a failed record leaves is read back: nothing of an unfinished line,
      the whole of a finished one. */
  lemma {:induction false} FailedRecordReloads(c: Codec, file: seq<Byte>, entries: seq<Entry>, e: Entry, wrote: nat)
    requires c.Faithful() && Whole(file) && Loaded(c, file) == Some(entries) && Continues(c, entries, e) && wrote <= |c.Line(e)|
    ensures Loaded(c, file + c.Line(e)[..wrote]) == Some(if wrote == |c.Line(e)| then entries + [e] else entries)
  {
    hide Lines;
    var line := c.Line(e);
    if wrote == |line| {
      assert line[..wrote] == line;
      AppendedIsLoaded(c, file, entries, e);
    } else {
      LinesAppend(file, line[..wrote]);
      forall i | 0 <= i < wrote ensures line[i] != NEWLINE { assert line[i] in c.encode(e); }
      NoLines(line, wrote);
      assert Lines(file) + [] == Lines(file);
    }
  }

  /** A failed record that left nothing or all of its line, followed by one that
      succeeds: the journal can be opened again exactly if nothing was left. */
  lemma {:induction false} ReloadsExactly(c: Codec, file: seq<Byte>, entries: seq<Entry>, first: Timed, second: Timed, wrote: nat)
    requires c.Faithful() && Whole(file) && Loaded(c, file) == Some(entries)
    requires var e := NextEntry(c, entries, first.record, first.at); wrote == 0 || wrote == |c.Line(e)|
    ensures var e, f := NextEntry(c, entries, first.record, first.at), NextEntry(c, entries, second.record, second.at);
            var left := file + c.Line(e)[..wrote] + c.Line(f);
            && (Loaded(c, left).Some? <==> wrote == 0)
            && (wrote == 0 ==> Loaded(c, left) == Some(entries + [f]))
  {
    hide Loaded, Whole, Codec.Faithful;
    var e, f := NextEntry(c, entries, first.record, first.at), NextEntry(c, entries, second.record, second.at);
    LineNotEmpty(c, e);
    if wrote == 0 {
      assert file + c.Line(e)[..0] == file;
      AppendedIsLoaded(c, file, entries, f);
    } else {
      assert c.Line(e)[..wrote] == c.Line(e);
      UnsyncedRecordBreaksReload(c, file, entries, first, second);
    }
  }

  lemma {:induction false} LineNotEmpty(c: Codec, e: Entry)
    ensures |c.Line(e)| > 0
  {
  }

  // ------------------------------------------------------------- transactions on record

  /** The entries of the records of a transaction that were written. */
  ghost predicate TakenDown(log: seq<Event>, tx: string, more: seq<Entry>)
  {
    if log == [] then more == []
    else
      var front, last := log[..|log| - 1], log[|log| - 1];
      if last.call.Note? && last.ok
      then more != [] && TakenDown(front, tx, more[..|more| - 1]) && IsRecordOf(more[|more| - 1].record, tx, last.call)
      else TakenDown(front, tx, more)
  }

  predicate IsRecordOf(r: Record, tx: string, c: Call)
    requires c.Note?
  {
    r.transaction == tx && r.stage == c.stage && r.status == c.status
  }

  ghost predicate HasStatus(entries: seq<Entry>, status: Status) { exists k: nat :: k < |entries| && entries[k].record.status == status }

  lemma {:induction false} TakenDownMeans(log: seq<Event>, tx: string, more: seq<Entry>, status: Status)
    requires TakenDown(log, tx, more)
    ensures forall e :: e in more ==> e.record.transaction == tx
    ensures HasStatus(more, status) <==> Wrote(log, status)
    ensures more != [] ==> exists i: nat :: i < |log| && log[i].call.Note? && log[i].ok
  {
    if log != [] {
      var m := |log| - 1;
      var front, last := log[..m], log[m];
      forall i: nat ensures Notes(log, i, status) <==> Notes(front, i, status) || (i == m && last.call.Note? && last.call.status == status) {}
      if last.call.Note? && last.ok {
        var before := more[..|more| - 1];
        TakenDownMeans(front, tx, before, status);
        assert more == before + [more[|more| - 1]];
        WroteMore(log, status);
        HasMore(more, status);
      } else {
        TakenDownMeans(front, tx, more, status);
        WroteMore(log, status);
        if more != [] {
          var i: nat :| i < |front| && front[i].call.Note? && front[i].ok;
          assert log[i] == front[i];
        }
      }
    }
  }

  lemma {:induction false} WroteMore(log: seq<Event>, status: Status)
    requires log != []
    ensures Wrote(log, status) <==> Wrote(log[..|log| - 1], status) || (Notes(log, |log| - 1, status) && log[|log| - 1].ok)
  {
    var front := log[..|log| - 1];
    forall i: nat | i < |front| ensures Notes(front, i, status) <==> Notes(log, i, status) {}
    if i: nat :| Notes(front, i, status) && front[i].ok { assert Notes(log, i, status) && log[i].ok; }
    if i: nat :| Notes(log, i, status) && log[i].ok { assert i < |front| ==> Notes(front, i, status) && front[i].ok; }
  }

  lemma {:induction false} HasMore(entries: seq<Entry>, status: Status)
    requires entries != []
    ensures HasStatus(entries, status) <==> HasStatus(entries[..|entries| - 1], status) || entries[|entries| - 1].record.status == status
  {
    var front := entries[..|entries| - 1];
    if k: nat :| k < |front| && front[k].record.status == status { assert entries[k].record.status == status; }
    if k: nat :| k < |entries| && entries[k].record.status == status { assert k < |front| ==> front[k].record.status == status; }
  }

  /** Recovery after a transaction whose written records close the journal: the
      transaction is listed as interrupted exactly if its start was written and
      neither its commit nor its rollback was; it is the last commit exactly if its
      commit was written; and about everybody else the answer is as before. */
  lemma {:induction false} TransactionRecovers(s: Story, tx: string, before: seq<Entry>, more: seq<Entry>,
                                               incomplete: seq<Entry>, places: seq<nat>, found: Option<Entry>)
    requires TakenDown(Transcript(s), tx, more) && forall e :: e in before ==> e.record.transaction != tx
    requires Interrupted(before + more, incomplete, places) && LastCommit(before + more, 0, found)
    ensures var log := Transcript(s);
            && (Lists(incomplete, tx) <==> Wrote(log, Started) && !Wrote(log, Committed) && !Wrote(log, RolledBack))
            && (found.Some? && found.value.record.transaction == tx <==> Wrote(log, Committed))
            && (!Wrote(log, Committed) ==> LastCommit(before, 0, found))
            && forall other :: other != tx ==> (Lists(incomplete, other) <==> IsOpen(before, other))
  {
    hide *;
    var log := Transcript(s);
    TakenDownMeans(log, tx, more, Started);
    TakenDownMeans(log, tx, more, Committed);
    TakenDownMeans(log, tx, more, RolledBack);
    if more != [] {
      var i: nat :| i < |log| && log[i].call.Note? && log[i].ok;
      StartedFirst(s, i);
    }
    StatusMeans(more, Started);
    OpenAfter(before, more, tx, tx);
    CommitAfter(before, more, tx, found);
    forall other ensures Lists(incomplete, other) <==> IsOpen(before + more, other) { ListsOpen(before + more, incomplete, places, other); }
    forall other | other != tx ensures IsOpen(before + more, other) <==> IsOpen(before, other) { OpenAfter(before, more, tx, other); }
  }

  ghost predicate Lists(incomplete: seq<Entry>, tx: string) { exists k :: 0 <= k < |incomplete| && incomplete[k].record.transaction == tx }

  /** Recorded, and never recorded as ended. */
  ghost predicate IsOpen(entries: seq<Entry>, tx: string)
  {
    && (exists i :: 0 <= i < |entries| && entries[i].record.transaction == tx)
    && forall i :: 0 <= i < |entries| && entries[i].record.transaction == tx ==>
         entries[i].record.status != Committed && entries[i].record.status != RolledBack
  }

  lemma {:induction false} ListsOpen(entries: seq<Entry>, incomplete: seq<Entry>, places: seq<nat>, tx: string)
    requires Interrupted(entries, incomplete, places)
    ensures Lists(incomplete, tx) <==> IsOpen(entries, tx)
  {
    hide Interrupted;
    InterruptedExactly(entries, incomplete, places, tx);
  }

  lemma {:induction false} StatusMeans(more: seq<Entry>, status: Status)
    ensures HasStatus(more, status) ==> more != []
  {
  }

  lemma {:induction false} OpenAfter(before: seq<Entry>, more: seq<Entry>, tx: string, other: string)
    requires (forall e :: e in before ==> e.record.transaction != tx) && forall e :: e in more ==> e.record.transaction == tx
    ensures other != tx ==> (IsOpen(before + more, other) <==> IsOpen(before, other))
    ensures IsOpen(before + more, tx) <==> more != [] && !HasStatus(more, Committed) && !HasStatus(more, RolledBack)
  {
    var all, n := before + more, |before|;
    forall i | 0 <= i < |all| ensures if i < n then all[i] == before[i] && all[i].record.transaction != tx else all[i] == more[i - n] && all[i].record.transaction == tx {
      if i < n { assert before[i] in before; } else { assert more[i - n] in more; }
    }
    forall k: nat | k < |more| ensures all[n + k] == more[k] && more[k].record.transaction == tx { assert more[k] in more; }
    if more != [] { assert all[n].record.transaction == tx; }
  }

  lemma {:induction false} CommitAfter(before: seq<Entry>, more: seq<Entry>, tx: string, found: Option<Entry>)
    requires (forall e :: e in before ==> e.record.transaction != tx) && forall e :: e in more ==> e.record.transaction == tx
    requires LastCommit(before + more, 0, found)
    ensures found.Some? && found.value.record.transaction == tx <==> HasStatus(more, Committed)
    ensures !HasStatus(more, Committed) ==> LastCommit(before, 0, found)
  {
    var all, n := before + more, |before|;
    forall k: nat | k < |more| ensures all[n + k] == more[k] && more[k].record.transaction == tx { assert more[k] in more; }
    forall k: nat | k < n ensures all[k] == before[k] && before[k].record.transaction != tx { assert before[k] in before; }
    forall k: nat | n <= k < |all| ensures all[k] == more[k - n] {}
  }

  /** What can be opened is numbered from 1, and every entry holds the hash of the
      one before it, and its own digest. */
  lemma {:induction false} LoadedIsNumbered(c: Codec, file: seq<Byte>, i: nat)
    requires Loaded(c, file).Some? && i < |Loaded(c, file).value|
    ensures var entries := Loaded(c, file).value;
            && entries[i].sequence == i + 1 && entries[i].previousHash == (if i == 0 then "" else entries[i - 1].hash)
            && entries[i].hash == c.digest(entries[i].(hash := ""))
  {
    hide Lines, Parsed;
    var entries := Loaded(c, file).value;
    ParsedIsChained(c, Lines(file));
    assert Continues(c, entries[..i], entries[i]);
  }

  // ------------------------------------------------------------- the algorithm

  lemma {:induction false} ConcatLines(a: seq<Byte>)
    requires Whole(a)
    ensures Concat(Lines(a)) == a
    decreases |a|
  {
    if |a| == 0 {
      NoLines(a, 0);
    } else {
      hide Lines;
      var k := WholeHasFirst(a);
      FirstOfBoth(a, [], k);
      LinesStep(a, k);
      ConcatLines(a[k + 1..]);
      var rest := Lines(a[k + 1..]);
      assert ([a[..k + 1]] + rest)[1..] == rest;
      assert a == a[..k + 1] + a[k + 1..];
    }
  }

  lemma {:induction false} CutOut(file: seq<Byte>, offset: nat, k: nat)
    requires offset <= k < |file| && file[k] == NEWLINE && forall i :: offset <= i < k ==> file[i] != NEWLINE
    ensures FirstAt(file[offset..k + 1], k - offset)
  {
    var line := file[offset..k + 1];
    forall i | 0 <= i < k - offset ensures line[i] != NEWLINE { assert line[i] == file[offset + i]; }
  }

  /** The next line decides whether the file can be loaded. */
  lemma {:induction false} LoadOneLine(c: Codec, file: seq<Byte>, offset: nat, k: nat, entries: seq<Entry>)
    requires offset <= k < |file| && Whole(file[..offset]) && Loaded(c, file[..offset]) == Some(entries)
    requires file[k] == NEWLINE && forall i :: offset <= i < k ==> file[i] != NEWLINE
    ensures var e := c.decode(file[offset..k + 1]);
            if e.Some? && Continues(c, entries, e.value)
            then Whole(file[..k + 1]) && Loaded(c, file[..k + 1]) == Some(entries + [e.value])
            else Loaded(c, file).None?
  {
    hide Lines, Continues;
    var before, line, after := file[..offset], file[offset..k + 1], file[k + 1..];
    assert before + line == file[..k + 1];
    assert file[..k + 1] + after == file;
    LinesAppend(before, line);
    CutOut(file, offset, k);
    LinesStep(line, k - offset);
    assert line[..k - offset + 1] == line;
    NoLines(line[k - offset + 1..], 0);
    LinesAppend(file[..k + 1], after);
    var lines := Lines(before) + [line];
    assert lines[..|lines| - 1] == Lines(before) && Lines(file)[..|lines|] == lines;
    if Parsed(c, Lines(file)).Some? { ParsedPrefix(c, Lines(file), |lines|); }
  }

  /** What follows the last line feed is dropped. */
  lemma {:induction false} LoadTail(c: Codec, file: seq<Byte>, offset: nat)
    requires offset <= |file| && Whole(file[..offset]) && forall i :: offset <= i < |file| ==> file[i] != NEWLINE
    ensures Loaded(c, file) == Loaded(c, file[..offset]) && WholePart(file) == file[..offset]
  {
    hide Lines, Parsed, Concat;
    var before, after := file[..offset], file[offset..];
    assert before + after == file;
    LinesAppend(before, after);
    NoLines(after, |after|);
    assert Lines(before) + [] == Lines(before);
    ConcatLines(before);
  }

  class FileJournal {
    const codec: Codec
    var file: seq<Byte>
    var entries: seq<Entry>
    var lastHash: string

    /** The file is whole and holds exactly the entries in memory. */
    ghost predicate Valid()
      reads this
    {
      Whole(file) && Loaded(codec, file) == Some(entries) && lastHash == LastHash(entries)
    }

    constructor (codec: Codec, file: seq<Byte>)
      ensures this.codec == codec && this.file == file && entries == [] && lastHash == ""
    {
      this.codec, this.file, entries, lastHash := codec, file, [], "";
    }

    /** bufio.Reader.ReadBytes: the place of the next line feed, or the end. */
    method NextNewline(offset: nat) returns (k: nat)
      requires offset <= |file|
      ensures offset <= k <= |file| && (forall i :: offset <= i < k ==> file[i] != NEWLINE) && (k < |file| ==> file[k] == NEWLINE)
    {
      k := offset;
      while k < |file| && file[k] != NEWLINE
        invariant offset <= k <= |file| && forall i :: offset <= i < k ==> file[i] != NEWLINE
      {
        k := k + 1;
      }
    }

    /** Reads the file; drops a torn last line; refuses anything else that is not
        a chain of entries. */
    method Load() returns (ok: bool)
      requires entries == [] && lastHash == ""
      modifies this
      ensures ok <==> Loaded(codec, old(file)).Some?
      ensures ok ==> Valid() && file == WholePart(old(file)) && Loaded(codec, old(file)) == Some(entries)
      ensures !ok ==> file == old(file)
    {
      hide Loaded, Whole, WholePart, Continues, LastHash;
      var offset := 0;
      NothingLoaded(codec);
      EmptyHash();
      assert file[..0] == [];
      while true
        invariant file == old(file) && offset <= |file| && Whole(file[..offset])
        invariant Loaded(codec, file[..offset]) == Some(entries) && lastHash == LastHash(entries)
        decreases |file| - offset
      {
        var k := NextNewline(offset);
        if k == |file| {
          LoadTail(codec, file, offset);
          file := file[..offset];
          return true;
        }
        LoadOneLine(codec, file, offset, k, entries);
        var e := codec.decode(file[offset..k + 1]);
        ContinuesMeans(codec, entries, lastHash, e);
        if e.None? { return false; }
        if e.value.sequence != |entries| + 1 || e.value.previousHash != lastHash || codec.EntryHash(e.value) != e.value.hash { return false; }
        entries, lastHash, offset := entries + [e.value], e.value.hash, k + 1;
      }
    }

    /** Appends one record. A failed write may leave any part of the line. */
    method Record(r: Record, at: nat) returns (ok: bool, ghost wrote: nat)
      requires lastHash == LastHash(entries)
      modifies this
      ensures var e := NextEntry(codec, old(entries), r, at);
              && wrote <= |codec.Line(e)| && file == old(file) + codec.Line(e)[..wrote]
              && lastHash == LastHash(entries)
              && (ok ==> wrote == |codec.Line(e)| && entries == old(entries) + [e])
              && (!ok ==> entries == old(entries))
      ensures ok && old(Valid()) && codec.Faithful() ==> Valid()
    {
      hide Loaded, Whole, Codec.Faithful;
      var e := Entry(|entries| + 1, at, lastHash, r, "");
      e := e.(hash := codec.EntryHash(e));
      assert e == NextEntry(codec, entries, r, at);
      var b := codec.encode(e) + [NEWLINE];
      assert b == codec.Line(e);
      if old(Valid()) && codec.Faithful() { AppendedIsLoaded(codec, file, entries, e); }
      var written: nat, synced: bool := *, *;
      wrote := if written < |b| then written else |b|;
      file := file + b[..if written < |b| then written else |b|];
      if written < |b| || !synced { return false, wrote; }
      assert b[..|b|] == b;
      entries, lastHash := entries + [e], e.hash;
      return true, wrote;
    }

    /** Which transactions a crash interrupted, latest first, and the last commit. */
    method RecoveryState() returns (incomplete: seq<Entry>, lastCommitted: Option<Entry>, ghost places: seq<nat>)
      ensures Interrupted(entries, incomplete, places)
      ensures LastCommit(entries, 0, lastCommitted)
    {
      hide *;
      var terminal: set<string> := {};
      lastCommitted := None;
      EndedNone(entries);
      for i := |entries| downto 0
        invariant terminal == EndedFrom(entries, i) && LastCommit(entries, i, lastCommitted)
      {
        EndedOneMore(entries, i, lastCommitted);
        var e := entries[i];
        if e.record.status == Committed && lastCommitted.None? { lastCommitted := Some(e); }
        if e.record.status == Committed || e.record.status == RolledBack { terminal := terminal + {e.record.transaction}; }
      }
      var seen: set<string> := {};
      incomplete, places := [], [];
      OpenNone(entries);
      for i := |entries| downto 0
        invariant OpenFrom(entries, i, seen, incomplete, places)
      {
        OpenOneMore(entries, i, seen, incomplete, places);
        var e := entries[i];
        if e.record.transaction !in terminal && e.record.transaction !in seen {
          incomplete, seen := incomplete + [e], seen + {e.record.transaction};
          places := places + [i];
        }
      }
      OpenAll(entries, seen, incomplete, places);
    }
  }

  lemma {:induction false} EndedNone(entries: seq<Entry>)
    ensures EndedFrom(entries, |entries|) == {} && LastCommit(entries, |entries|, None)
  {
  }

  lemma {:induction false} EndedOneMore(entries: seq<Entry>, i: nat, found: Option<Entry>)
    requires i < |entries| && LastCommit(entries, i + 1, found)
    ensures EndedFrom(entries, i) == EndedFrom(entries, i + 1) + if IsFinal(entries[i].record.status) then {entries[i].record.transaction} else {}
    ensures IsFinal(entries[i].record.status) <==> entries[i].record.status == Committed || entries[i].record.status == RolledBack
    ensures LastCommit(entries, i, if entries[i].record.status == Committed && found.None? then Some(entries[i]) else found)
  {
  }

  /** The part of the answer that comes from place i on. */
  ghost predicate OpenFrom(entries: seq<Entry>, i: nat, seen: set<string>, incomplete: seq<Entry>, places: seq<nat>)
  {
    && |places| == |incomplete|
    && (forall k :: 0 <= k < |places| ==> places[k] >= i && LastOfOpen(entries, places[k]) && incomplete[k] == entries[places[k]])
    && (forall k, l :: 0 <= k < l < |places| ==> places[k] > places[l])
    && (forall j :: i <= j && LastOfOpen(entries, j) ==> j in places)
    && (forall j :: i <= j < |entries| && entries[j].record.transaction !in EndedFrom(entries, 0) ==> entries[j].record.transaction in seen)
    && (forall tx :: tx in seen ==> exists j :: i <= j < |entries| && entries[j].record.transaction == tx)
  }

  lemma {:induction false} OpenNone(entries: seq<Entry>)
    ensures OpenFrom(entries, |entries|, {}, [], [])
  {
  }

  lemma {:induction false} OpenOneMore(entries: seq<Entry>, i: nat, seen: set<string>, incomplete: seq<Entry>, places: seq<nat>)
    requires i < |entries| && OpenFrom(entries, i + 1, seen, incomplete, places)
    ensures var tx := entries[i].record.transaction;
            if tx !in EndedFrom(entries, 0) && tx !in seen
            then OpenFrom(entries, i, seen + {tx}, incomplete + [entries[i]], places + [i])
            else OpenFrom(entries, i, seen, incomplete, places)
  {
    hide EndedFrom;
    var tx := entries[i].record.transaction;
    if tx in seen {
      var j :| i + 1 <= j < |entries| && entries[j].record.transaction == tx;
    }
    assert LastOfOpen(entries, i) <==> tx !in EndedFrom(entries, 0) && tx !in seen;
    assert i in places + [i];
  }

  lemma {:induction false} OpenAll(entries: seq<Entry>, seen: set<string>, incomplete: seq<Entry>, places: seq<nat>)
    requires OpenFrom(entries, 0, seen, incomplete, places)
    ensures Interrupted(entries, incomplete, places)
  {
    hide LastOfOpen;
  }

  lemma {:induction false} EmptyHash()
    ensures LastHash([]) == ""
  {
  }

  lemma {:induction false} ContinuesMeans(c: Codec, entries: seq<Entry>, lastHash: string, e: Option<Entry>)
    requires lastHash == LastHash(entries)
    ensures e.Some? ==>
      && (Continues(c, entries, e.value) <==>
            e.value.sequence == |entries| + 1 && e.value.previousHash == lastHash && c.EntryHash(e.value) == e.value.hash)
      && LastHash(entries + [e.value]) == e.value.hash
  {
  }
}
