/**
 The backward log reader (internal/logging/logging.go).

 `ReadTail` walks the file from its end, one chunk at a time. `TakeLast(limit, Kept(Split(NEWLINE, file)))`
 is the simple rule it must equal: split on newlines, decode, filter, keep the last `limit`.
 Reads may fail: `fails(offset)` says whether reading the chunk that starts at `offset` does.
 */
module LogTail {
  import opened Wrappers
  import opened Lines

  const NEWLINE: byte := 10

  const DEFAULT_READ_LIMIT := 5000

  const TAIL_CHUNK := 64 * 1024

  // ----- The simple rule ------------------------------------------------------------

  /** The entries of the lines that decode and pass the filter, in order. */
  function Kept<E>(lines: seq<Bytes>, decode: Bytes -> Option<E>, keep: E -> bool): seq<E> {
    if lines == [] then [] else
      KeptLine(lines[0], decode, keep) + Kept(lines[1..], decode, keep)
  }

  function KeptLine<E>(line: Bytes, decode: Bytes -> Option<E>, keep: E -> bool): seq<E> {
    var e := decode(line);
    if e.Some? && keep(e.value) then [e.value] else []
  }

  function TakeLast<E>(limit: nat, s: seq<E>): seq<E> {
    if |s| <= limit then s else s[|s| - limit..]
  }

  lemma {:induction false} KeptConcat<E>(a: seq<Bytes>, b: seq<Bytes>, decode: Bytes -> Option<E>, keep: E -> bool)
    ensures Kept(a + b, decode, keep) == Kept(a, decode, keep) + Kept(b, decode, keep)
  {
    if a == [] {
      assert a + b == b;
    } else {
      KeptConcat(a[1..], b, decode, keep);
      assert (a + b)[0] == a[0] && (a + b)[1..] == a[1..] + b;
      Associates(KeptLine(a[0], decode, keep), Kept(a[1..], decode, keep), Kept(b, decode, keep));
    }
  }

  lemma Associates<T>(a: seq<T>, b: seq<T>, c: seq<T>)
    ensures a + (b + c) == (a + b) + c
  {
  }

  lemma KeptOne<E>(line: Bytes, decode: Bytes -> Option<E>, keep: E -> bool)
    ensures Kept([line], decode, keep) == KeptLine(line, decode, keep)
  {
    assert [line][1..] == [];
  }

  // ----- What the scan can see ------------------------------------------------------

  /** Where the chunk before `pos` starts. */
  function ChunkStart(pos: nat, chunk: nat): nat {
    if chunk < pos then pos - chunk else 0
  }

  /** The lowest offset the backward walk from `pos` reads successfully. */
  function Floor(pos: nat, chunk: nat, fails: nat -> bool): (floor: nat)
    requires chunk > 0
    ensures floor <= pos
    decreases pos
  {
    if pos == 0 || fails(ChunkStart(pos, chunk)) then pos else Floor(ChunkStart(pos, chunk), chunk, fails)
  }

  /** The walk stopped because reading the chunk at the very start of the file failed. */
  predicate TornStart(size: nat, chunk: nat, fails: nat -> bool)
    requires chunk > 0
  {
    var floor := Floor(size, chunk, fails);
    floor > 0 && ChunkStart(floor, chunk) == 0
  }

  /**
   The lines the code resolves when nothing stops it early. Below a failed read the first
   line is a fragment, and is dropped, unless the failed chunk was the file's first one: the
   position is moved before the read, so the code then takes the fragment for the first line.
   */
  function VisibleLines(file: Bytes, chunk: nat, fails: nat -> bool): seq<Bytes>
    requires chunk > 0
  {
    var floor := Floor(|file|, chunk, fails);
    var lines := Split(NEWLINE, file[floor..]);
    if floor == 0 || TornStart(|file|, chunk, fails) then lines else lines[1..]
  }

  // ----- The code -------------------------------------------------------------------

  method LastIndexByte(b: Bytes, c: byte) returns (i: int)
    ensures -1 <= i < |b|
    ensures i == -1 ==> c !in b
    ensures i >= 0 ==> b[i] == c && c !in b[i + 1..]
  {
    i := |b| - 1;
    while i >= 0 && b[i] != c
      invariant -1 <= i < |b|
      invariant c !in b[i + 1..]
    {
      i := i - 1;
    }
  }

  ghost function Reversed<E>(s: seq<E>): (r: seq<E>)
    ensures |r| == |s|
  {
    seq(|s|, k requires 0 <= k < |s| => s[|s| - 1 - k])
  }

  /** The in-place reversal that ends the scan. */
  method Reverse<E>(newestFirst: seq<E>) returns (out: seq<E>)
    ensures out == Reversed(newestFirst)
  {
    out := newestFirst;
    var i, j := 0, |out| - 1;
    while i < j
      invariant 0 <= i && i + j == |out| - 1 && |out| == |newestFirst|
      invariant forall k | 0 <= k < |out| && (k < i || j < k) :: out[k] == newestFirst[|out| - 1 - k]
      invariant forall k | 0 <= k < |out| && i <= k <= j :: out[k] == newestFirst[k]
    {
      out := out[i := out[j]][j := out[i]];
      i, j := i + 1, j - 1;
    }
  }

  /** The scan's state: `newestFirst` holds the kept entries of the resolved lines, newest first. */
  ghost predicate Scanned<E>(tail: Bytes, pending: Bytes, resolved: seq<Bytes>, newestFirst: seq<E>,
                             decode: Bytes -> Option<E>, keep: E -> bool)
  {
    && Split(NEWLINE, tail) == Split(NEWLINE, pending) + resolved
    && Reversed(newestFirst) == Kept(resolved, decode, keep)
  }

  /** Reading further back only touches the lines not yet resolved. */
  lemma {:induction false} SplitExtends(front: Bytes, tail: Bytes, pending: Bytes, resolved: seq<Bytes>)
    requires Split(NEWLINE, tail) == Split(NEWLINE, pending) + resolved
    ensures Split(NEWLINE, front + tail) == Split(NEWLINE, front + pending) + resolved
  {
    if front == [] {
      assert front + tail == tail && front + pending == pending;
    } else {
      SplitExtends(front[1..], tail, pending, resolved);
      assert (front + tail)[1..] == front[1..] + tail;
      assert (front + pending)[1..] == front[1..] + pending;
      PrependConcat(NEWLINE, front[0], Split(NEWLINE, front[1..] + pending), resolved);
    }
  }

  lemma ReversedGrows<E>(s: seq<E>, more: seq<E>)
    requires |more| <= 1
    ensures Reversed(s + more) == more + Reversed(s)
  {
  }

  lemma TakeLastSuffix<E>(limit: nat, a: seq<E>, b: seq<E>)
    requires |b| == limit
    ensures TakeLast(limit, a + b) == b
  {
  }

  lemma NothingScanned<E>(decode: Bytes -> Option<E>, keep: E -> bool)
    ensures Scanned<E>([], [], [], [], decode, keep)
  {
    assert Split(NEWLINE, []) + [] == Split(NEWLINE, []);
  }

  lemma CutAround<T>(s: seq<T>, i: nat)
    requires 0 < i <= |s|
    ensures s == s[..i - 1] + [s[i - 1]] + s[i..]
  {
  }

  lemma SlicesJoin<T>(s: seq<T>, i: nat, j: nat)
    requires i <= j <= |s|
    ensures s[i..] == s[i..j] + s[j..]
  {
  }

  /** One more chunk: what was read goes in front of the unresolved bytes. */
  lemma ScanFurther<E>(file: Bytes, pos: nat, at: nat, pending: Bytes, resolved: seq<Bytes>, newestFirst: seq<E>,
                       decode: Bytes -> Option<E>, keep: E -> bool)
    requires pos <= at <= |file| && Scanned(file[at..], pending, resolved, newestFirst, decode, keep)
    ensures Scanned(file[pos..], file[pos..at] + pending, resolved, newestFirst, decode, keep)
  {
    SplitExtends(file[pos..at], file[at..], pending, resolved);
    SlicesJoin(file, pos, at);
  }

  /** Resolving the last pending line. */
  lemma ResolveLine<E>(tail: Bytes, pending: Bytes, i: nat, resolved: seq<Bytes>, newestFirst: seq<E>,
                       decode: Bytes -> Option<E>, keep: E -> bool)
    requires Scanned(tail, pending, resolved, newestFirst, decode, keep)
    requires i < |pending| && pending[i] == NEWLINE && NEWLINE !in pending[i + 1..]
    ensures var line := pending[i + 1..];
            Scanned(tail, pending[..i], [line] + resolved, newestFirst + KeptLine(line, decode, keep), decode, keep)
  {
    var line := pending[i + 1..];
    CutAround(pending, i + 1);
    SplitLastLine(NEWLINE, pending, pending[..i], line);
    Associates(Split(NEWLINE, pending[..i]), [line], resolved);
    KeptConcat([line], resolved, decode, keep);
    KeptOne(line, decode, keep);
    ReversedGrows(newestFirst, KeptLine(line, decode, keep));
  }

  /** The last lines decide the last entries. */
  lemma LastEntries<E>(lines: seq<Bytes>, front: seq<Bytes>, resolved: seq<Bytes>, n: nat, decode: Bytes -> Option<E>, keep: E -> bool)
    requires lines == front + resolved && |Kept(resolved, decode, keep)| == n
    ensures TakeLast(n, Kept(lines, decode, keep)) == Kept(resolved, decode, keep)
  {
    KeptConcat(front, resolved, decode, keep);
    TakeLastSuffix(n, Kept(front, decode, keep), Kept(resolved, decode, keep));
  }

  /** The resolved lines end what can be seen. */
  lemma ResolvedAreVisible(file: Bytes, at: nat, pending: Bytes, resolved: seq<Bytes>, chunk: nat, fails: nat -> bool)
    returns (front: seq<Bytes>)
    requires chunk > 0 && Floor(|file|, chunk, fails) <= at <= |file|
    requires Split(NEWLINE, file[at..]) == Split(NEWLINE, pending) + resolved
    ensures VisibleLines(file, chunk, fails) == front + resolved
  {
    var floor := Floor(|file|, chunk, fails);
    SplitExtends(file[floor..at], file[at..], pending, resolved);
    SlicesJoin(file, floor, at);
    var older := Split(NEWLINE, file[floor..at] + pending);
    front := if floor == 0 || TornStart(|file|, chunk, fails) then older else older[1..];
    RestOfConcat(older, resolved);
  }

  lemma RestOfConcat<T>(a: seq<T>, b: seq<T>)
    requires |a| > 0
    ensures (a + b)[1..] == a[1..] + b
  {
  }

  /** Enough entries: nothing further back can matter. */
  lemma LimitReached<E>(file: Bytes, at: nat, pending: Bytes, resolved: seq<Bytes>, newestFirst: seq<E>,
                        chunk: nat, fails: nat -> bool, decode: Bytes -> Option<E>, keep: E -> bool)
    requires chunk > 0 && Floor(|file|, chunk, fails) <= at <= |file|
    requires Scanned(file[at..], pending, resolved, newestFirst, decode, keep)
    ensures Reversed(newestFirst) == TakeLast(|newestFirst|, Kept(VisibleLines(file, chunk, fails), decode, keep))
  {
    var front := ResolvedAreVisible(file, at, pending, resolved, chunk, fails);
    LastEntries(VisibleLines(file, chunk, fails), front, resolved, |newestFirst|, decode, keep);
  }

  /** The walk is over: `pending` is the one unresolved line, taken as a line or dropped. */
  lemma WalkOver<E>(file: Bytes, pos: nat, pending: Bytes, resolved: seq<Bytes>, newestFirst: seq<E>,
                    chunk: nat, fails: nat -> bool, decode: Bytes -> Option<E>, keep: E -> bool)
    requires chunk > 0 && decode([]) == None
    requires var floor := Floor(|file|, chunk, fails);
             && Scanned(file[floor..], pending, resolved, newestFirst, decode, keep)
             && pos == ChunkStart(floor, chunk)
    requires NEWLINE !in pending
    ensures var last := if pos == 0 && |pending| > 0 then KeptLine(pending, decode, keep) else [];
            Reversed(newestFirst + last) == Kept(VisibleLines(file, chunk, fails), decode, keep)
  {
    SplitOneLine(NEWLINE, pending);
    KeptConcat([pending], resolved, decode, keep);
    KeptOne(pending, decode, keep);
    assert ([pending] + resolved)[1..] == resolved;
    ReversedGrows(newestFirst, KeptLine(pending, decode, keep));
    assert newestFirst + [] == newestFirst;
  }

  lemma ScanEnds<E>(file: Bytes, at: nat, pos: nat, pending: Bytes, resolved: seq<Bytes>, newestFirst: seq<E>,
                    chunk: nat, fails: nat -> bool, decode: Bytes -> Option<E>, keep: E -> bool, limit: nat)
    requires chunk > 0 && decode([]) == None
    requires Floor(|file|, chunk, fails) <= at <= |file|
    requires Scanned(file[at..], pending, resolved, newestFirst, decode, keep)
    requires |newestFirst| <= limit
    requires |newestFirst| < limit ==>
               NEWLINE !in pending && at == Floor(|file|, chunk, fails) && pos == ChunkStart(at, chunk)
    ensures var last := if pos == 0 && |newestFirst| < limit && |pending| > 0 then KeptLine(pending, decode, keep) else [];
            Reversed(newestFirst + last) == TakeLast(limit, Kept(VisibleLines(file, chunk, fails), decode, keep))
  {
    if |newestFirst| == limit {
      LimitReached(file, at, pending, resolved, newestFirst, chunk, fails, decode, keep);
      assert newestFirst + [] == newestFirst;
    } else {
      WalkOver(file, pos, pending, resolved, newestFirst, chunk, fails, decode, keep);
    }
  }

  /** The inner loop: resolve complete lines, last first, until the limit or no newline is left. */
  method ResolveLines<E>(ghost tail: Bytes, unread: Bytes, found: seq<E>, limit: nat, ghost known: seq<Bytes>,
                         decode: Bytes -> Option<E>, keep: E -> bool)
    returns (pending: Bytes, newestFirst: seq<E>, ghost resolved: seq<Bytes>)
    requires Scanned(tail, unread, known, found, decode, keep) && |found| <= limit
    ensures Scanned(tail, pending, resolved, newestFirst, decode, keep) && |newestFirst| <= limit
    ensures |newestFirst| < limit ==> NEWLINE !in pending
  {
    pending, newestFirst, resolved := unread, found, known;
    while |newestFirst| < limit
      invariant |newestFirst| <= limit
      invariant Scanned(tail, pending, resolved, newestFirst, decode, keep)
      decreases |pending|
    {
      var i := LastIndexByte(pending, NEWLINE);
      if i < 0 {
        break;
      }
      ResolveLine(tail, pending, i, resolved, newestFirst, decode, keep);
      resolved := [pending[i + 1..]] + resolved;
      newestFirst := newestFirst + KeptLine(pending[i + 1..], decode, keep);
      pending := pending[..i];
    }
  }

  /** One chunk is in: its lines are resolved as far as they are complete. */
  method TakeChunk<E>(file: Bytes, pos: nat, ghost at: nat, n: nat, unread: Bytes, found: seq<E>, limit: nat, ghost known: seq<Bytes>,
                      decode: Bytes -> Option<E>, keep: E -> bool)
    returns (pending: Bytes, newestFirst: seq<E>, ghost resolved: seq<Bytes>)
    requires pos + n == at <= |file| && Scanned(file[at..], unread, known, found, decode, keep) && |found| <= limit
    ensures Scanned(file[pos..], pending, resolved, newestFirst, decode, keep) && |newestFirst| <= limit
    ensures |newestFirst| < limit ==> NEWLINE !in pending
  {
    ScanFurther(file, pos, at, unread, known, found, decode, keep);
    pending, newestFirst, resolved := ResolveLines(file[pos..], file[pos..pos + n] + unread, found, limit, known, decode, keep);
  }

  /** The outer loop: one chunk further back at a time, until the start, the limit or a failed read. */
  method ScanBack<E>(file: Bytes, chunk: nat, fails: nat -> bool, decode: Bytes -> Option<E>, keep: E -> bool, limit: nat)
    returns (pos: nat, pending: Bytes, newestFirst: seq<E>, ghost at: nat, ghost resolved: seq<Bytes>)
    requires chunk > 0 && limit > 0
    ensures Floor(|file|, chunk, fails) <= at <= |file| && |newestFirst| <= limit
    ensures Scanned(file[at..], pending, resolved, newestFirst, decode, keep)
    ensures |newestFirst| < limit ==>
              NEWLINE !in pending && at == Floor(|file|, chunk, fails) && pos == ChunkStart(at, chunk)
  {
    newestFirst := [];
    pending := [];
    pos := |file|;
    at := pos;
    resolved := [];
    NothingScanned(decode, keep);
    assert file[at..] == [];
    while pos > 0 && |newestFirst| < limit
      invariant 0 <= pos <= |file| && at == pos
      invariant |newestFirst| <= limit
      invariant |newestFirst| < limit ==> NEWLINE !in pending
      invariant Floor(|file|, chunk, fails) == Floor(pos, chunk, fails)
      invariant Scanned(file[at..], pending, resolved, newestFirst, decode, keep)
      decreases pos
    {
      var n := chunk;
      if n > pos {
        n := pos;
      }
      pos := pos - n;
      if fails(pos) {
        break;
      }
      pending, newestFirst, resolved := TakeChunk(file, pos, at, n, pending, newestFirst, limit, resolved, decode, keep);
      at := pos;
    }
  }

  /**
   `chunk` is the chunk size, 65536 in the running program. The result is exactly what the
   simple rule gives on the lines the scan can see; `ReadsWholeFile` below says when that is
   the whole file.
   */
  method ReadTail<E>(file: Bytes, chunk: nat, fails: nat -> bool, decode: Bytes -> Option<E>, keep: E -> bool, limit: nat)
    returns (out: seq<E>)
    requires chunk > 0 && limit > 0
    requires decode([]) == None
    ensures out == TakeLast(limit, Kept(VisibleLines(file, chunk, fails), decode, keep))
  {
    var pos, pending, newestFirst, at, resolved := ScanBack(file, chunk, fails, decode, keep, limit);
    ScanEnds(file, at, pos, pending, resolved, newestFirst, chunk, fails, decode, keep, limit);
    if pos == 0 && |newestFirst| < limit && |pending| > 0 {
      newestFirst := newestFirst + KeptLine(pending, decode, keep);
    } else {
      assert newestFirst + [] == newestFirst;
    }
    out := Reverse(newestFirst);
  }

  // ----- When that is the whole file -------------------------------------------------

  lemma {:induction false} FloorReachesStart(pos: nat, chunk: nat, fails: nat -> bool)
    requires chunk > 0
    requires forall q | 0 <= q < pos :: !fails(q)
    ensures Floor(pos, chunk, fails) == 0
    decreases pos
  {
    if pos > 0 {
      FloorReachesStart(ChunkStart(pos, chunk), chunk, fails);
    }
  }

  /** When every read succeeds the scan is the simple rule, for every chunk size. */
  lemma ReadsWholeFile(file: Bytes, chunk: nat, fails: nat -> bool)
    requires chunk > 0 && forall q | 0 <= q < |file| :: !fails(q)
    ensures VisibleLines(file, chunk, fails) == Split(NEWLINE, file)
  {
    FloorReachesStart(|file|, chunk, fails);
    assert file[0..] == file;
  }

  ghost predicate IsSuffix<E>(a: seq<E>, b: seq<E>) {
    |a| <= |b| && b[|b| - |a|..] == a
  }

  /** Dropping lines from the front drops entries from the front. */
  lemma LaterEntries<E>(lines: seq<Bytes>, front: seq<Bytes>, later: seq<Bytes>, decode: Bytes -> Option<E>, keep: E -> bool)
    requires lines == front + later
    ensures IsSuffix(Kept(later, decode, keep), Kept(lines, decode, keep))
  {
    KeptConcat(front, later, decode, keep);
  }

  lemma FirstLineWhole(b: Bytes)
    ensures NEWLINE !in Split(NEWLINE, b)[0]
  {
    NoSeparatorInLines(NEWLINE, b);
    assert Split(NEWLINE, b)[0] in Split(NEWLINE, b);
  }

  lemma HeadAndRest<T>(s: seq<T>)
    requires s != []
    ensures s == [s[0]] + s[1..]
  {
  }

  /** What reading only `tail` leaves of the file: a first line, possibly torn, and whole lines. */
  lemma SplitFrom(file: Bytes, front: Bytes, tail: Bytes)
    requires file == front + tail
    ensures Split(NEWLINE, file) == Split(NEWLINE, front + Split(NEWLINE, tail)[0]) + Split(NEWLINE, tail)[1..]
  {
    var lines := Split(NEWLINE, tail);
    FirstLineWhole(tail);
    SplitOneLine(NEWLINE, lines[0]);
    HeadAndRest(lines);
    SplitExtends(front, tail, lines[0], lines[1..]);
  }

  /** A failed read above the first chunk loses older entries and nothing else. */
  lemma DamageLosesOnlyOlderEntries<E>(file: Bytes, chunk: nat, fails: nat -> bool, decode: Bytes -> Option<E>, keep: E -> bool)
    requires chunk > 0 && !TornStart(|file|, chunk, fails)
    ensures IsSuffix(Kept(VisibleLines(file, chunk, fails), decode, keep), Kept(Split(NEWLINE, file), decode, keep))
  {
    var floor := Floor(|file|, chunk, fails);
    if floor == 0 {
      assert file[0..] == file;
    } else {
      var lines := Split(NEWLINE, file[floor..]);
      SplitFrom(file, file[..floor], file[floor..]);
      LaterEntries(Split(NEWLINE, file), Split(NEWLINE, file[..floor] + lines[0]), lines[1..], decode, keep);
    }
  }

  /**
   The condition a caller can check: the failed read was not the first chunk's, or the bytes
   read start on a line boundary, or they start with a newline, leaving no fragment.
   */
  predicate NoFragmentTaken(file: Bytes, chunk: nat, fails: nat -> bool)
    requires chunk > 0
  {
    var floor := Floor(|file|, chunk, fails);
    TornStart(|file|, chunk, fails) ==> file[floor - 1] == NEWLINE || floor == |file| || file[floor] == NEWLINE
  }

  lemma BoundaryLeavesWholeLines<E>(file: Bytes, before: Bytes, after: Bytes, decode: Bytes -> Option<E>, keep: E -> bool)
    requires file == before + [NEWLINE] + after
    ensures IsSuffix(Kept(Split(NEWLINE, after), decode, keep), Kept(Split(NEWLINE, file), decode, keep))
  {
    SplitAtSeparator(NEWLINE, file, before, after);
    LaterEntries(Split(NEWLINE, file), Split(NEWLINE, before), Split(NEWLINE, after), decode, keep);
  }

  lemma NothingTornLeavesWholeLines<E>(file: Bytes, floor: nat, decode: Bytes -> Option<E>, keep: E -> bool)
    requires floor <= |file| && decode([]) == None && (floor == |file| || file[floor] == NEWLINE)
    ensures IsSuffix(Kept(Split(NEWLINE, file[floor..]), decode, keep), Kept(Split(NEWLINE, file), decode, keep))
  {
    var lines := Split(NEWLINE, file[floor..]);
    SplitFrom(file, file[..floor], file[floor..]);
    assert lines[0] == [];
    assert Kept(lines, decode, keep) == Kept(lines[1..], decode, keep);
    LaterEntries(Split(NEWLINE, file), Split(NEWLINE, file[..floor] + lines[0]), lines[1..], decode, keep);
  }

  lemma WholeLinesOnly<E>(file: Bytes, chunk: nat, fails: nat -> bool, decode: Bytes -> Option<E>, keep: E -> bool)
    requires chunk > 0 && decode([]) == None && NoFragmentTaken(file, chunk, fails)
    ensures IsSuffix(Kept(VisibleLines(file, chunk, fails), decode, keep), Kept(Split(NEWLINE, file), decode, keep))
  {
    var floor := Floor(|file|, chunk, fails);
    if !TornStart(|file|, chunk, fails) {
      DamageLosesOnlyOlderEntries(file, chunk, fails, decode, keep);
    } else if file[floor - 1] == NEWLINE {
      CutAround(file, floor);
      BoundaryLeavesWholeLines(file, file[..floor - 1], file[floor..], decode, keep);
    } else {
      NothingTornLeavesWholeLines(file, floor, decode, keep);
    }
  }

  /** A decoder that keeps every non-empty line as it is. */
  function RawLine(line: Bytes): Option<Bytes> {
    if line == [] then None else Some(line)
  }

  lemma {:induction false} LastLineIsLonger(front: Bytes, fragment: Bytes)
    requires NEWLINE !in fragment && |front| > 0 && front[|front| - 1] != NEWLINE
    ensures var lines := Split(NEWLINE, front + fragment); |lines[|lines| - 1]| > |fragment|
  {
    assert (front + fragment)[1..] == front[1..] + fragment;
    if |front| == 1 {
      SplitOneLine(NEWLINE, fragment);
    } else {
      LastLineIsLonger(front[1..], fragment);
    }
  }

  lemma KeptEndsWithLastLine(lines: seq<Bytes>)
    requires |lines| > 0 && lines[|lines| - 1] != []
    ensures var kept := Kept(lines, RawLine, (b: Bytes) => true); |kept| > 0 && kept[|kept| - 1] == lines[|lines| - 1]
  {
    var last := lines[|lines| - 1];
    assert lines == lines[..|lines| - 1] + [last];
    KeptConcat(lines[..|lines| - 1], [last], RawLine, (b: Bytes) => true);
    KeptOne(last, RawLine, (b: Bytes) => true);
  }

  lemma NoSuffix<T>(front: seq<T>, x: T, later: seq<T>)
    requires front != [] && front[|front| - 1] != x
    ensures !IsSuffix([x] + later, front + later)
  {
    var seen, held := [x] + later, front + later;
    assert held[|held| - |seen|..][0] == front[|front| - 1] && seen[0] == x;
  }

  /** A fragment kept as an entry stands where the file holds a longer one. */
  lemma FragmentIsNoEntry(whole: seq<Bytes>, fragment: Bytes, later: seq<Bytes>)
    requires whole != [] && |whole[|whole| - 1]| > |fragment| > 0
    ensures !IsSuffix(Kept([fragment] + later, RawLine, (b: Bytes) => true), Kept(whole + later, RawLine, (b: Bytes) => true))
  {
    var all := (b: Bytes) => true;
    KeptEndsWithLastLine(whole);
    KeptConcat(whole, later, RawLine, all);
    KeptConcat([fragment], later, RawLine, all);
    KeptOne(fragment, RawLine, all);
    NoSuffix(Kept(whole, RawLine, all), fragment, Kept(later, RawLine, all));
  }

  lemma FirstLineHolds(b: Bytes)
    requires b != [] && b[0] != NEWLINE
    ensures Split(NEWLINE, b)[0] != []
  {
  }

  lemma TornLineIsNoEntry(file: Bytes, front: Bytes, tail: Bytes)
    requires file == front + tail && front != [] && front[|front| - 1] != NEWLINE && tail != [] && tail[0] != NEWLINE
    ensures !IsSuffix(Kept(Split(NEWLINE, tail), RawLine, (b: Bytes) => true), Kept(Split(NEWLINE, file), RawLine, (b: Bytes) => true))
  {
    var lines := Split(NEWLINE, tail);
    FirstLineWhole(tail);
    FirstLineHolds(tail);
    SplitFrom(file, front, tail);
    LastLineIsLonger(front, lines[0]);
    HeadAndRest(lines);
    FragmentIsNoEntry(Split(NEWLINE, front + lines[0]), lines[0], lines[1..]);
  }

  /** When a fragment is taken for a line, some decoder makes it an entry the file does not hold. */
  lemma FragmentShowsThrough(file: Bytes, chunk: nat, fails: nat -> bool)
    requires chunk > 0 && !NoFragmentTaken(file, chunk, fails)
    ensures !IsSuffix(Kept(VisibleLines(file, chunk, fails), RawLine, (b: Bytes) => true),
                      Kept(Split(NEWLINE, file), RawLine, (b: Bytes) => true))
  {
    var floor := Floor(|file|, chunk, fails);
    TornLineIsNoEntry(file, file[..floor], file[floor..]);
  }

  lemma LastAreSuffix<E>(limit: nat, a: seq<E>, b: seq<E>)
    requires IsSuffix(a, b)
    ensures IsSuffix(TakeLast(limit, a), b)
  {
    var k := |TakeLast(limit, a)|;
    assert b[|b| - |a|..][|a| - k..] == b[|b| - k..];
  }

  /** Whatever the decoder, the filter and the limit, what is returned ends what the file holds. */
  ghost predicate NeverInventsEntries(file: Bytes, chunk: nat, fails: nat -> bool)
    requires chunk > 0
  {
    forall limit: nat, decode: Bytes -> Option<Bytes>, keep: Bytes -> bool | decode([]) == None ::
      IsSuffix(TakeLast(limit, Kept(VisibleLines(file, chunk, fails), decode, keep)), Kept(Split(NEWLINE, file), decode, keep))
  }

  /** The scan returns only entries the file holds, whatever the decoder and the limit, exactly when no fragment is taken. */
  lemma TornReadExact(file: Bytes, chunk: nat, fails: nat -> bool)
    requires chunk > 0
    ensures NeverInventsEntries(file, chunk, fails) <==> NoFragmentTaken(file, chunk, fails)
  {
    if NoFragmentTaken(file, chunk, fails) {
      forall limit: nat, decode: Bytes -> Option<Bytes>, keep: Bytes -> bool | decode([]) == None
        ensures IsSuffix(TakeLast(limit, Kept(VisibleLines(file, chunk, fails), decode, keep)), Kept(Split(NEWLINE, file), decode, keep))
      {
        WholeLinesOnly(file, chunk, fails, decode, keep);
        LastAreSuffix(limit, Kept(VisibleLines(file, chunk, fails), decode, keep), Kept(Split(NEWLINE, file), decode, keep));
      }
    } else {
      FragmentShowsThrough(file, chunk, fails);
      var all := (b: Bytes) => true;
      var seen := Kept(VisibleLines(file, chunk, fails), RawLine, all);
      assert TakeLast(|seen|, seen) == seen;
    }
  }

  // ----- Decoders that reject fragments ---------------------------------------------------

  ghost predicate ProperSuffix(a: Bytes, b: Bytes) {
    |a| < |b| && b[|b| - |a|..] == a
  }

  /** No line accepted ends in another one that is. */
  ghost predicate RejectsFragments<E>(decode: Bytes -> Option<E>) {
    decode([]) == None && forall line, fragment | decode(line).Some? && ProperSuffix(fragment, line) :: decode(fragment) == None
  }

  /** The file holds entries and empty lines only. */
  ghost predicate AllDecode<E>(file: Bytes, decode: Bytes -> Option<E>) {
    forall line | line in Split(NEWLINE, file) :: line == [] || decode(line).Some?
  }

  lemma LastOfPrepended(c: byte, lines: seq<Bytes>)
    requires lines != []
    ensures var r, last := Prepend(NEWLINE, c, lines), lines[|lines| - 1];
            r[|r| - 1] == last || r[|r| - 1] == [c] + last
  {
  }

  lemma {:induction false} LastLineEndsSo(front: Bytes, fragment: Bytes) returns (start: Bytes)
    requires NEWLINE !in fragment
    ensures var lines := Split(NEWLINE, front + fragment); lines[|lines| - 1] == start + fragment
  {
    if front == [] {
      start := [];
      assert front + fragment == fragment;
      SplitOneLine(NEWLINE, fragment);
    } else {
      start := LastLineEndsSo(front[1..], fragment);
      assert (front + fragment)[1..] == front[1..] + fragment;
      var lines, whole := Split(NEWLINE, front[1..] + fragment), Split(NEWLINE, front + fragment);
      LastOfPrepended(front[0], lines);
      if whole[|whole| - 1] != lines[|lines| - 1] {
        Associates([front[0]], start, fragment);
        start := [front[0]] + start;
      }
    }
  }

  lemma LongerEndsProperly(line: Bytes, start: Bytes, fragment: Bytes)
    requires line == start + fragment && |line| > |fragment|
    ensures ProperSuffix(fragment, line)
  {
  }

  /** What reading only `tail` takes for a first line is rejected, if the line it is torn from is an entry. */
  lemma FragmentIsRejected<E>(file: Bytes, front: Bytes, tail: Bytes, decode: Bytes -> Option<E>)
    requires file == front + tail && front != [] && front[|front| - 1] != NEWLINE
    requires RejectsFragments(decode) && AllDecode(file, decode)
    ensures decode(Split(NEWLINE, tail)[0]) == None
  {
    var line := TornLine(file, front, tail);
    assert decode(line).Some?;
  }

  lemma TornLine(file: Bytes, front: Bytes, tail: Bytes) returns (line: Bytes)
    requires file == front + tail && front != [] && front[|front| - 1] != NEWLINE
    ensures line in Split(NEWLINE, file) && line != [] && ProperSuffix(Split(NEWLINE, tail)[0], line)
  {
    var fragment := Split(NEWLINE, tail)[0];
    var lines := Split(NEWLINE, front + fragment);
    line := lines[|lines| - 1];
    FirstLineWhole(tail);
    SplitFrom(file, front, tail);
    var start := LastLineEndsSo(front, fragment);
    LastLineIsLonger(front, fragment);
    LongerEndsProperly(line, start, fragment);
  }

  lemma RejectedLeavesWholeLines<E>(file: Bytes, front: Bytes, tail: Bytes, decode: Bytes -> Option<E>, keep: E -> bool)
    requires file == front + tail && decode(Split(NEWLINE, tail)[0]) == None
    ensures IsSuffix(Kept(Split(NEWLINE, tail), decode, keep), Kept(Split(NEWLINE, file), decode, keep))
  {
    var lines := Split(NEWLINE, tail);
    SplitFrom(file, front, tail);
    assert Kept(lines, decode, keep) == Kept(lines[1..], decode, keep);
    LaterEntries(Split(NEWLINE, file), Split(NEWLINE, front + lines[0]), lines[1..], decode, keep);
  }

  /** A file of entries read with a decoder that rejects fragments: whichever read fails, nothing is invented. */
  lemma RejectedFragmentsDoNoHarm<E>(file: Bytes, chunk: nat, fails: nat -> bool, decode: Bytes -> Option<E>, keep: E -> bool, limit: nat)
    requires chunk > 0 && RejectsFragments(decode) && AllDecode(file, decode)
    ensures IsSuffix(TakeLast(limit, Kept(VisibleLines(file, chunk, fails), decode, keep)), Kept(Split(NEWLINE, file), decode, keep))
  {
    var floor := Floor(|file|, chunk, fails);
    if NoFragmentTaken(file, chunk, fails) {
      WholeLinesOnly(file, chunk, fails, decode, keep);
    } else {
      var front, tail := file[..floor], file[floor..];
      assert file == front + tail;
      FragmentIsRejected(file, front, tail, decode);
      RejectedLeavesWholeLines(file, front, tail, decode, keep);
    }
    LastAreSuffix(limit, Kept(VisibleLines(file, chunk, fails), decode, keep), Kept(Split(NEWLINE, file), decode, keep));
  }

  function OnlyTwo(line: Bytes): Option<Bytes> {
    if line == [2] then Some(line) else None
  }

  /** It takes both: a line that is no entry can end in one, and is then torn into it. */
  lemma TornNonEntryBecomesOne()
    ensures RejectsFragments(OnlyTwo) && !AllDecode([1, 2], OnlyTwo)
    ensures !IsSuffix(Kept(VisibleLines([1, 2], 1, n => n == 0), OnlyTwo, (b: Bytes) => true),
                      Kept(Split(NEWLINE, [1, 2]), OnlyTwo, (b: Bytes) => true))
  {
    var file: Bytes, fails, all := [1, 2], (n: nat) => n == 0, (b: Bytes) => true;
    SplitOneLine(NEWLINE, file);
    assert Floor(1, 1, fails) == 1 && Floor(2, 1, fails) == 1;
    assert file[1..] == [2];
    SplitOneLine(NEWLINE, file[1..]);
    KeptOne(file, OnlyTwo, all);
    KeptOne(file[1..], OnlyTwo, all);
  }

  // ----- Store.Read -----------------------------------------------------------------

  datatype Entry = Entry(timestamp: string, level: string, source: string, message: string)

  predicate Contains(s: string, sub: string) {
    sub <= s || (s != [] && Contains(s[1..], sub))
  }

  /** `sub` stands in `s` from position `at` on. */
  predicate StandsAt(s: string, sub: string, at: nat) {
    at + |sub| <= |s| && s[at..at + |sub|] == sub
  }

  lemma StandsFurtherOn(s: string, sub: string, at: nat)
    requires s != []
    ensures StandsAt(s, sub, at + 1) <==> StandsAt(s[1..], sub, at)
  {
    if at + 1 + |sub| <= |s| {
      assert s[at + 1..at + 1 + |sub|] == s[1..][at..at + |sub|];
    }
  }

  lemma StandsFirst(s: string, sub: string)
    ensures StandsAt(s, sub, 0) <==> sub <= s
  {
  }

  /** The search finds a text exactly when it stands somewhere. */
  lemma {:induction false} ContainsExactly(s: string, sub: string)
    ensures Contains(s, sub) <==> exists at: nat :: StandsAt(s, sub, at)
  {
    StandsFirst(s, sub);
    if s != [] {
      ContainsExactly(s[1..], sub);
      forall at: nat
        ensures StandsAt(s, sub, at + 1) <==> StandsAt(s[1..], sub, at)
      {
        StandsFurtherOn(s, sub, at);
      }
      if at: nat :| StandsAt(s[1..], sub, at) {
        assert StandsAt(s, sub, at + 1);
      }
      if at: nat :| StandsAt(s, sub, at) {
        assert at > 0 ==> StandsAt(s[1..], sub, at - 1);
      }
    }
  }

  predicate Wanted(e: Entry, level: string, source: string, equalFold: (string, string) -> bool, lower: string -> string) {
    && (level == "" || equalFold(e.level, level))
    && (source == "" || Contains(lower(e.source), lower(source)))
  }

  lemma {:induction false} SameFilterSameEntries<E(!new)>(lines: seq<Bytes>, decode: Bytes -> Option<E>, keep: E -> bool, keep': E -> bool)
    requires forall e :: keep(e) == keep'(e)
    ensures Kept(lines, decode, keep) == Kept(lines, decode, keep')
  {
    if lines != [] {
      SameFilterSameEntries(lines[1..], decode, keep, keep');
    }
  }

  /**
   `open` gives the bytes of a day's file, or None when it cannot be opened; `isDate` is the date parse.
   An entry is kept when its level is the one asked for, up to case, and the text asked for stands somewhere
   in its module's name, both put in lower case; an empty filter keeps everything.
   */
  method Read(open: string -> Option<Bytes>, isDate: string -> bool, today: string, decode: Bytes -> Option<Entry>,
              equalFold: (string, string) -> bool, lower: string -> string,
              date: string, level: string, source: string, limit: int)
    returns (entries: seq<Entry>)
    requires decode([]) == None
    ensures var day := if date == "" then today else date;
            var keep := (e: Entry) =>
                          && (level != "" ==> equalFold(e.level, level))
                          && (source != "" ==> exists at: nat :: StandsAt(lower(e.source), lower(source), at));
            var bound := if limit <= 0 then 5000 else limit;
            entries == if isDate(day) && open(day).Some?
                       then TakeLast(bound, Kept(Split(NEWLINE, open(day).value), decode, keep))
                       else []
  {
    var day := if date == "" then today else date;
    if !isDate(day) {
      return [];
    }
    var bound := limit;
    if bound <= 0 {
      bound := DEFAULT_READ_LIMIT;
    }
    var file := open(day);
    if file == None {
      return [];
    }
    var keep := (e: Entry) => Wanted(e, level, source, equalFold, lower);
    ReadsWholeFile(file.value, TAIL_CHUNK, (q: nat) => false);
    entries := ReadTail(file.value, TAIL_CHUNK, (q: nat) => false, decode, keep, bound);
    ghost var spelled := (e: Entry) =>
      && (level != "" ==> equalFold(e.level, level))
      && (source != "" ==> exists at: nat :: StandsAt(lower(e.source), lower(source), at));
    forall e: Entry
      ensures keep(e) == spelled(e)
    {
      ContainsExactly(lower(e.source), lower(source));
    }
    SameFilterSameEntries(Split(NEWLINE, file.value), decode, keep, spelled);
  }
}
