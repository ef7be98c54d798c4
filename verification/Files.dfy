/** Reading files and directories of the archive through file descriptors (read_s and read_dir in sys/tarfs.c). */
module Files {
  import opened CStrings
  import opened Tar

  const MAX_FDS: nat := 10

  /** A descriptor; the two pointers are offsets into the archive. */
  datatype Fd = Fd(alloted: int, fileSz: int, numBytesRead: int, filePtr: nat, lastMatched: nat)

  // ----- chunked reads

  /** What one read of `k` bytes delivers when the cursor stands at `read`. */
  function Chunk(content: seq<char>, read: nat, k: nat): seq<char> {
    if read < |content| then content[read..if read + k < |content| then read + k else |content|] else []
  }

  /** The cursor moves by what was asked for. */
  function Moved(content: seq<char>, read: nat, k: nat): nat {
    if read < |content| then read + k else read
  }

  function Delivered(content: seq<char>, read: nat, ks: seq<nat>): seq<char>
    decreases |ks|
  {
    if ks == [] then [] else Chunk(content, read, ks[0]) + Delivered(content, Moved(content, read, ks[0]), ks[1..])
  }

  function Sum(ks: seq<nat>): nat {
    if ks == [] then 0 else ks[0] + Sum(ks[1..])
  }

  /** Any sequence of reads delivers the file in order, without a gap: as much as was asked for, up to its end. */
  lemma {:induction false} ReadsDeliver(content: seq<char>, read: nat, ks: seq<nat>)
    ensures Delivered(content, read, ks) == Chunk(content, read, Sum(ks))
    decreases |ks|
  {
    if ks != [] && read < |content| {
      ReadsDeliver(content, read + ks[0], ks[1..]);
      if read + ks[0] < |content| {
        assert content[read..read + ks[0]] + Chunk(content, read + ks[0], Sum(ks[1..]))
               == Chunk(content, read, Sum(ks));
      }
    } else if ks != [] {
      ReadsDeliver(content, read, ks[1..]);
    }
  }

  function CursorAfter(content: seq<char>, read: nat, ks: seq<nat>): nat
    decreases |ks|
  {
    if ks == [] then read else CursorAfter(content, Moved(content, read, ks[0]), ks[1..])
  }

  lemma {:induction false} CursorSum(content: seq<char>, read: nat, ks: seq<nat>)
    ensures CursorAfter(content, read, ks) == read + Sum(ks)
            || |content| <= CursorAfter(content, read, ks) <= read + Sum(ks)
    decreases |ks|
  {
    if ks != [] {
      CursorSum(content, Moved(content, read, ks[0]), ks[1..]);
    }
  }

  /** A read of at least one byte delivers nothing exactly when the reads before it delivered the whole file. */
  lemma EmptyReadMeansWholeFile(content: seq<char>, ks: seq<nat>, k: nat)
    requires k > 0
    ensures Delivered(content, 0, ks) <= content
    ensures Chunk(content, CursorAfter(content, 0, ks), k) == [] <==> Delivered(content, 0, ks) == content
  {
    ReadsDeliver(content, 0, ks);
    CursorSum(content, 0, ks);
    var c := CursorAfter(content, 0, ks);
    assert |Chunk(content, c, k)| > 0 <==> c < |content|;
    assert c < |content| ==> Delivered(content, 0, ks) == content[..c];
  }

  // ----- directories

  /** The test of read_dir, for a directory `dir` whose last reported entry was `last`. */
  predicate Matches(es: seq<Entry>, dir: seq<char>, last: nat, i: nat)
    requires last < |es| && i < |es|
  {
    && ProperPrefix(dir, es[i].name) && es[last].name != es[i].name
    && (dir == es[last].name || !ProperPrefix(es[last].name, es[i].name))
  }

  /** The first entry from `i` on that passes the test. */
  function FirstMatch(es: seq<Entry>, dir: seq<char>, last: nat, i: nat): (n: nat)
    requires last < |es| && i <= |es|
    ensures i <= n <= |es| && (n < |es| ==> Matches(es, dir, last, n))
    ensures forall j :: i <= j < n ==> !Matches(es, dir, last, j)
    decreases |es| - i
  {
    if i == |es| || Matches(es, dir, last, i) then i else FirstMatch(es, dir, last, i + 1)
  }

  /** A name directly inside `dir`: one component more, with or without a slash at its end. */
  predicate IsChild(dir: seq<char>, name: seq<char>) {
    ProperPrefix(dir, name) && '/' !in name[|dir|..|name| - 1]
  }

  /** The first child from `i` on. */
  function NextChild(es: seq<Entry>, dir: seq<char>, i: nat): (n: nat)
    requires i <= |es|
    ensures i <= n <= |es| && (n < |es| ==> IsChild(dir, es[n].name))
    ensures forall j :: i <= j < n ==> !IsChild(dir, es[j].name)
    decreases |es| - i
  {
    if i == |es| || IsChild(dir, es[i].name) then i else NextChild(es, dir, i + 1)
  }

  /** Entry `i` lies inside the directory entry `c`, and so does everything between them. */
  ghost predicate Inside(es: seq<Entry>, c: nat, i: nat) {
    c < i < |es| && Last(es[c].name) == '/' && forall k :: c < k <= i ==> ProperPrefix(es[c].name, es[k].name)
  }

  function Last(s: seq<char>): char {
    if s == [] then NUL else s[|s| - 1]
  }

  /** An archive in pre-order, as seen from directory `d`: no name twice, everything inside the directory comes after
      it, and what is deeper inside lies in an unbroken run behind a child that is a directory. */
  ghost predicate PreOrder(es: seq<Entry>, d: nat) {
    && d < |es|
    && (forall i, j :: 0 <= i < j < |es| ==> es[i].name != es[j].name)
    && (forall i :: 0 <= i < |es| && ProperPrefix(es[d].name, es[i].name) ==>
        d < i && (IsChild(es[d].name, es[i].name) || InChild(es, d, i)))
  }

  ghost predicate InChild(es: seq<Entry>, d: nat, i: nat)
    requires d < |es|
  {
    exists c :: d < c < |es| && IsChild(es[d].name, es[c].name) && Inside(es, c, i)
  }

  /** Where an enumeration may stand: at the directory itself, or at one of its children. */
  predicate Stands(es: seq<Entry>, d: nat, last: nat) {
    d <= last < |es| && (last == d || IsChild(es[d].name, es[last].name))
  }

  /** The next child is not hidden behind the last one, whose name would have to be a proper prefix of its name. */
  predicate Visible(es: seq<Entry>, d: nat, last: nat, n: nat)
    requires d < |es| && last < |es| && n < |es|
  {
    last == d || !ProperPrefix(es[last].name, es[n].name)
  }

  /** No child lies inside another child of the same directory. */
  lemma ChildNotInside(dir: seq<char>, a: seq<char>, b: seq<char>)
    requires IsChild(dir, a) && IsChild(dir, b) && Last(a) == '/'
    ensures !ProperPrefix(a, b)
  {
    var rest, m := b[|dir|..|b| - 1], |a| - 1 - |dir|;
    assert m < |rest| ==> rest[m] == b[|a| - 1] && rest[m] != '/';
  }

  /** What lies inside a child directory that is not behind the last entry reported lies inside that very entry. */
  lemma InsideLast(es: seq<Entry>, d: nat, last: nat, c: nat, i: nat)
    requires Stands(es, d, last) && d < c && c < |es| && IsChild(es[d].name, es[c].name) && Inside(es, c, i)
    requires last < i < NextChild(es, es[d].name, last + 1)
    ensures c == last && last != d && ProperPrefix(es[last].name, es[i].name)
  {
    if last != d {
      ChildNotInside(es[d].name, es[c].name, es[last].name);
    }
  }

  /** Between the last entry reported and the next child nothing passes the test. */
  lemma NothingBetween(es: seq<Entry>, d: nat, last: nat, i: nat)
    requires PreOrder(es, d) && Stands(es, d, last) && last <= i < NextChild(es, es[d].name, last + 1)
    ensures !Matches(es, es[d].name, last, i)
  {
    if last < i && ProperPrefix(es[d].name, es[i].name) {
      assert !IsChild(es[d].name, es[i].name);
      assert InChild(es, d, i);
      var c :| d < c < |es| && IsChild(es[d].name, es[c].name) && Inside(es, c, i);
      InsideLast(es, d, last, c, i);
    }
  }

  /** One call of read_dir finds the next child if and only if that child is visible. */
  lemma FindsNextChildIff(es: seq<Entry>, d: nat, last: nat)
    requires PreOrder(es, d) && Stands(es, d, last)
    ensures var n := NextChild(es, es[d].name, last + 1);
            FirstMatch(es, es[d].name, last, last) == n <==> n == |es| || Visible(es, d, last, n)
    ensures last < FirstMatch(es, es[d].name, last, last)
  {
    var n, m := NextChild(es, es[d].name, last + 1), FirstMatch(es, es[d].name, last, last);
    if m < n {
      NothingBetween(es, d, last, m);
      assert false;
    }
    if n < |es| {
      assert es[last].name != es[n].name;
      assert Matches(es, es[d].name, last, n) <==> Visible(es, d, last, n);
    }
  }

  /** The children behind `last`, in archive order. */
  function Children(es: seq<Entry>, d: nat, last: nat): seq<nat>
    requires d < |es| && last < |es|
    decreases |es| - last
  {
    var n := NextChild(es, es[d].name, last + 1);
    if n == |es| then [] else [n] + Children(es, d, n)
  }

  /** What repeated calls report, until one finds nothing. */
  function Reported(es: seq<Entry>, d: nat, last: nat): seq<nat>
    requires d < |es| && last < |es|
    decreases |es| - last
  {
    var n := FirstMatch(es, es[d].name, last, last);
    if n == |es| || n == last then [] else [n] + Reported(es, d, n)
  }

  /** Every child is visible from the one before it. */
  predicate AllVisible(es: seq<Entry>, d: nat, last: nat)
    requires d < |es| && last < |es|
    decreases |es| - last
  {
    var n := NextChild(es, es[d].name, last + 1);
    n == |es| || (Visible(es, d, last, n) && AllVisible(es, d, n))
  }

  /** The enumeration reports exactly the children, each once and in archive order, if and only if no child's name is a
      proper prefix of the next child's. */
  lemma {:induction false} EnumerationIff(es: seq<Entry>, d: nat, last: nat)
    requires PreOrder(es, d) && Stands(es, d, last)
    ensures Reported(es, d, last) == Children(es, d, last) <==> AllVisible(es, d, last)
    decreases |es| - last
  {
    var n := NextChild(es, es[d].name, last + 1);
    FindsNextChildIff(es, d, last);
    if n < |es| {
      if Visible(es, d, last, n) {
        EnumerationIff(es, d, n);
        assert Reported(es, d, last)[1..] == Reported(es, d, n) && Children(es, d, last)[1..] == Children(es, d, n);
      } else {
        assert Children(es, d, last)[0] == n;
      }
    }
  }

  /** A directory whose second child's name goes on where the first one's ends: only the first is reported. */
  lemma ChildHidesNext(es: seq<Entry>)
    requires |es| == 3 && es[0].name == "t/" && es[1].name == "t/b" && es[2].name == "t/bc"
    ensures PreOrder(es, 0) && Children(es, 0, 0) == [1, 2] && Reported(es, 0, 0) == [1]
  {
    var dir := es[0].name;
    assert es[1].name[|dir|..|es[1].name| - 1] == "" && es[2].name[|dir|..|es[2].name| - 1] == "b";
    assert IsChild(dir, es[1].name) && IsChild(dir, es[2].name);
    assert NextChild(es, dir, 1) == 1 && NextChild(es, dir, 2) == 2 && NextChild(es, dir, 3) == 3;
    assert Children(es, 0, 2) == [] && Children(es, 0, 1) == [2] + Children(es, 0, 2);
    assert !Matches(es, dir, 0, 0) && Matches(es, dir, 0, 1) && FirstMatch(es, dir, 0, 0) == 1;
    assert !Matches(es, dir, 1, 1) && !Matches(es, dir, 1, 2)
           && FirstMatch(es, dir, 1, 2) == FirstMatch(es, dir, 1, 3) == 3;
    assert FirstMatch(es, dir, 1, 1) == 3;
    assert Reported(es, 0, 1) == [];
  }

  /** The list of children is what its name says. */
  lemma {:induction false} ChildrenAreAll(es: seq<Entry>, d: nat, last: nat)
    requires d < |es| && last < |es|
    ensures forall i :: i in Children(es, d, last) <==> last < i < |es| && IsChild(es[d].name, es[i].name)
    ensures forall j, k :: 0 <= j < k < |Children(es, d, last)| ==> Children(es, d, last)[j] < Children(es, d, last)[k]
    decreases |es| - last
  {
    var n := NextChild(es, es[d].name, last + 1);
    if n < |es| {
      ChildrenAreAll(es, d, n);
      var rest := Children(es, d, n);
      forall k | 0 <= k < |rest|
        ensures n < rest[k]
      {
        assert rest[k] in rest;
      }
    }
  }

  /** What read_dir hands out for a child: its name inside the directory, without the slash of a directory. */
  lemma ReportedName(es: seq<Entry>, d: nat, i: nat)
    requires d < |es| && i < |es| && IsChild(es[d].name, es[i].name)
    ensures var dir, name := es[d].name, es[i].name;
            Component(es, d, i) == if Last(name) == '/' then name[|dir|..|name| - 1] else name[|dir|..]
  {
    LastComponent(es[d].name, es[i].name);
  }

  lemma LastComponent(dir: seq<char>, name: seq<char>)
    requires IsChild(dir, name)
    ensures Before(name[|dir|..], '/') == if Last(name) == '/' then name[|dir|..|name| - 1] else name[|dir|..]
  {
    var s := name[|dir|..];
    if Last(name) == '/' {
      assert s[..|s| - 1] == name[|dir|..|name| - 1];
      BeforeIs(s, '/', |s| - 1);
    } else {
      assert s == name[|dir|..|name| - 1] + [Last(name)];
      BeforeIs(s, '/', |s|);
    }
  }

  class FileTable {
    const image: seq<char>
    const fds: array<Fd>

    constructor (image: seq<char>)
      ensures this.image == image && fresh(fds) && fds.Length == MAX_FDS
      ensures forall i :: 0 <= i < MAX_FDS ==> fds[i] == Fd(0, 0, 0, 0, 0)
    {
      this.image := image;
      fds := new Fd[MAX_FDS](_ => Fd(0, 0, 0, 0, 0));
    }

    predicate InUse(fd: nat)
      reads fds
    {
      fd < fds.Length && fds[fd].alloted == 1
    }

    /** Descriptor `fd` reads the `fileSz` bytes from `start` on. */
    ghost predicate OpenFile(fd: nat, start: nat)
      reads fds
    {
      && fd < fds.Length && fds[fd].fileSz >= 0 && fds[fd].numBytesRead >= 0
      && fds[fd].filePtr == start + fds[fd].numBytesRead && start + fds[fd].fileSz <= |image|
    }

    ghost function Content(fd: nat, start: nat): seq<char>
      requires OpenFile(fd, start)
      reads fds
    {
      image[start..start + fds[fd].fileSz]
    }

    /** read_s of a file, for a request that does not carry the 32-bit cursor over its end. */
    method ReadS(fd: nat, buffer: array<char>, numBytes: nat, ghost start: nat) returns (n: nat)
      requires fds.Length == MAX_FDS && fd != 0 && numBytes <= buffer.Length
      requires InUse(fd) ==> OpenFile(fd, start) && fds[fd].numBytesRead + numBytes < 0x8000_0000
      modifies fds, buffer
      ensures !old(InUse(fd)) ==> n == 0 && fds[..] == old(fds[..]) && buffer[..] == old(buffer[..])
      ensures old(InUse(fd)) ==> OpenFile(fd, start) && Content(fd, start) == old(Content(fd, start))
      ensures old(InUse(fd)) ==>
                var c, r := old(Content(fd, start)), old(fds[fd].numBytesRead);
                && n == |Chunk(c, r, numBytes)| && buffer[..] == Chunk(c, r, numBytes) + old(buffer[..])[n..]
                && fds[fd].numBytesRead == Moved(c, r, numBytes)
      ensures old(InUse(fd)) ==>
                fds[fd].numBytesRead
                == old(fds[fd].numBytesRead) + if old(fds[fd].numBytesRead) < old(fds[fd].fileSz) then numBytes else 0
      ensures forall i :: 0 <= i < MAX_FDS && i != fd ==> fds[i] == old(fds[i])
    {
      if !(fd < MAX_FDS && fds[fd].alloted == 1) {
        return 0;
      }
      var fileSz := fds[fd].fileSz;
      var numBytesRead := fds[fd].numBytesRead;
      var numBytesRemaining := fileSz - numBytesRead;
      var filePtr := fds[fd].filePtr;
      if numBytesRead < fileSz {
        n := if numBytes < numBytesRemaining then numBytes else numBytesRemaining;
        MemCopy(filePtr, buffer, n);
        SubSlice(image, start, start + fileSz, numBytesRead, numBytesRead + n);
        assert image[filePtr..filePtr + n] == Chunk(Content(fd, start), numBytesRead, numBytes);
        fds[fd] := fds[fd].(filePtr := fds[fd].filePtr + numBytes);
        fds[fd] := fds[fd].(numBytesRead := fds[fd].numBytesRead + numBytes);
      } else {
        n := 0;
      }
    }

    method MemCopy(from: nat, buffer: array<char>, n: nat)
      requires from + n <= |image| && n <= buffer.Length
      modifies buffer
      ensures buffer[..] == image[from..from + n] + old(buffer[..])[n..]
    {
      for i := 0 to n
        invariant forall j :: 0 <= j < i ==> buffer[j] == image[from + j]
        invariant forall j :: i <= j < buffer.Length ==> buffer[j] == old(buffer[j])
      {
        buffer[i] := image[from + i];
      }
    }

    /** read_dir: reports the first entry that passes the test, searching from the one reported last. */
    method ReadDir(fd: nat, buffer: array<char>, ghost es: seq<Entry>, ghost d: nat, ghost last: nat) returns (r: int)
      requires fds.Length == MAX_FDS && EntriesOk(es) && image == Archive(es) && d < |es| && last < |es|
      requires InUse(fd) ==> fds[fd].filePtr == Offset(es, d) && fds[fd].lastMatched == Offset(es, last)
      requires buffer.Length >= 100
      modifies fds, buffer
      ensures var n := FirstMatch(es, es[d].name, last, last);
              if old(InUse(fd)) && n < |es| then
                && r == 0 && fds[..] == old(fds[..])[fd := old(fds[fd]).(lastMatched := Offset(es, n))]
                && var part := Before(es[n].name[|es[d].name|..], '/'); buffer[..] == part + old(buffer[..])[|part|..]
              else
                r == 1 && fds[..] == old(fds[..]) && buffer[..] == old(buffer[..])
    {
      if fd == 25 {
        return 1;
      }
      if !(fd < MAX_FDS && fds[fd].alloted == 1) {
        return 1;
      }
      NameAt(es, d);
      NameAt(es, last);
      var dirName := image[fds[fd].filePtr..];
      var header, found := Search(dirName, image[fds[fd].lastMatched..], fds[fd].lastMatched, es, es[d].name, last);
      if found {
        ghost var n := FirstMatch(es, es[d].name, last, last);
        NameAt(es, n);
        fds[fd] := fds[fd].(lastMatched := header);
        StringSub(image[header..], dirName, buffer, '/');
        return 0;
      }
      return 1;
    }

    /** The loop of read_dir. */
    method Search(dirName: seq<char>, lastMatchedName: seq<char>, from: nat, ghost es: seq<Entry>, ghost dir: seq<char>,
                  ghost last: nat)
      returns (header: nat, found: bool)
      requires EntriesOk(es) && image == Archive(es) && last < |es| && from == Offset(es, last)
      requires Terminated(dirName) && Text(dirName) == dir && Terminated(lastMatchedName)
               && Text(lastMatchedName) == es[last].name
      ensures found <==> FirstMatch(es, dir, last, last) < |es|
      ensures found ==> header == Offset(es, FirstMatch(es, dir, last, last))
    {
      header := from;
      ghost var i := last;
      InsideArchive(es, last);
      while header < |image|
        invariant last <= i <= |es| && header == Offset(es, i) && (header < |image| <==> i < |es|)
        invariant forall j :: last <= j < i ==> !Matches(es, dir, last, j)
        decreases |es| - i
      {
        found := TestAt(dirName, lastMatchedName, header, es, dir, last, i);
        if found {
          return;
        }
        header := Tar.Advance(image, header, es, i);
        i := i + 1;
        InsideArchive(es, i);
      }
      found := false;
    }

    method TestAt(dirName: seq<char>, lastMatchedName: seq<char>, header: nat, ghost es: seq<Entry>,
                  ghost dir: seq<char>, ghost last: nat, ghost i: nat) returns (found: bool)
      requires EntriesOk(es) && image == Archive(es) && last < |es| && i < |es| && header == Offset(es, i)
      requires Terminated(dirName) && Text(dirName) == dir && Terminated(lastMatchedName)
               && Text(lastMatchedName) == es[last].name
      ensures found <==> Matches(es, dir, last, i)
    {
      NameAt(es, i);
      found := TestEntry(dirName, lastMatchedName, image[header..]);
    }

    /** The two conditions inside the loop of read_dir. */
    method TestEntry(dirName: seq<char>, lastMatchedName: seq<char>, name: seq<char>) returns (found: bool)
      requires Terminated(dirName) && Terminated(lastMatchedName) && Terminated(name)
      ensures found <==> ProperPrefix(Text(dirName), Text(name)) && Text(lastMatchedName) != Text(name)
                         && (Text(dirName) == Text(lastMatchedName) || !ProperPrefix(Text(lastMatchedName), Text(name)))
    {
      found := false;
      var inDir := IsSubString(dirName, name);
      var sameName := StrCompare1(lastMatchedName, name);
      if inDir == 0 && sameName != 0 {
        var atDir := StrCompare1(dirName, lastMatchedName);
        var inLast := IsSubString(lastMatchedName, name);
        if atDir == 0 || inLast != 0 {
          found := true;
        }
      }
    }

    method Clear(buffer: array<char>)
      modifies buffer
      ensures buffer[..] == Zeros(buffer.Length)
    {
      for i := 0 to buffer.Length
        invariant forall j :: 0 <= j < i ==> buffer[j] == NUL
      {
        buffer[i] := NUL;
      }
    }

    /** One round: the buffer is cleared, then read_dir is called. */
    method NextName(fd: nat, buffer: array<char>, ghost es: seq<Entry>, ghost d: nat, ghost last: nat)
        returns (r: int, name: seq<char>)
      requires fds.Length == MAX_FDS && EntriesOk(es) && image == Archive(es) && d < |es| && last < |es|
      requires InUse(fd) && fds[fd].filePtr == Offset(es, d) && fds[fd].lastMatched == Offset(es, last)
      requires buffer.Length >= 100
      modifies fds, buffer
      ensures InUse(fd) && fds[fd].filePtr == Offset(es, d)
      ensures var n := FirstMatch(es, es[d].name, last, last);
              if n < |es| then r == 0 && fds[fd].lastMatched == Offset(es, n) && name == Component(es, d, n) else r == 1
    {
      Clear(buffer);
      r := ReadDir(fd, buffer, es, d, last);
      ghost var n := FirstMatch(es, es[d].name, last, last);
      if r == 0 {
        ComponentText(es, d, n, buffer[..]);
      }
      name := if NUL in buffer[..] then Text(buffer[..]) else buffer[..];
    }

    /** The loop of tarfs_test over a directory, until read_dir says 1: it collects the names of the children. */
    method ListDirectory(fd: nat, buffer: array<char>, ghost es: seq<Entry>, ghost d: nat)
        returns (names: seq<seq<char>>)
      requires fds.Length == MAX_FDS && EntriesOk(es) && image == Archive(es) && PreOrder(es, d) && AllVisible(es, d, d)
      requires InUse(fd) && fds[fd].filePtr == Offset(es, d) && fds[fd].lastMatched == Offset(es, d)
      requires buffer.Length >= 100
      modifies fds, buffer
      ensures names == ChildNames(es, d, d)
    {
      names := [];
      ghost var last, left := d, ChildNames(es, d, d);
      ghost var all := left;
      var r := 0;
      while r == 0
        invariant r == 0 ==> Listing(es, d, last, left) && fds[fd].lastMatched == Offset(es, last)
        invariant InUse(fd) && fds[fd].filePtr == Offset(es, d) && (r != 0 ==> left == [])
        invariant all == names + left
        decreases r == 0, |es| - last
      {
        ListingStep(es, d, last, left);
        var name;
        r, name := NextName(fd, buffer, es, d, last);
        if r == 0 {
          last := FirstMatch(es, es[d].name, last, last);
          names := names + [name];
          left := left[1..];
        }
      }
    }
  }

  /** The enumeration stands at `last`, every further child is visible, and `left` are the names still to report. */
  ghost predicate Listing(es: seq<Entry>, d: nat, last: nat, left: seq<seq<char>>) {
    PreOrder(es, d) && Stands(es, d, last) && AllVisible(es, d, last) && left == ChildNames(es, d, last)
  }

  lemma ListingStep(es: seq<Entry>, d: nat, last: nat, left: seq<seq<char>>)
    requires Listing(es, d, last, left)
    ensures var n := FirstMatch(es, es[d].name, last, last);
            if n < |es| then last < n && left != [] && left[0] == Component(es, d, n) && Listing(es, d, n, left[1..])
            else left == []
  {
    FindsNextChildIff(es, d, last);
  }

  /** The names that the children behind `last` have inside the directory. */
  function ChildNames(es: seq<Entry>, d: nat, last: nat): (names: seq<seq<char>>)
    requires d < |es| && last < |es|
    ensures |names| == |Children(es, d, last)|
    ensures forall k :: 0 <= k < |names| ==> names[k] == Component(es, d, Children(es, d, last)[k])
    decreases |es| - last
  {
    var n := NextChild(es, es[d].name, last + 1);
    if n == |es| then [] else [Component(es, d, n)] + ChildNames(es, d, n)
  }

  /** The name of entry `i` inside directory `d`, up to the first slash. */
  function Component(es: seq<Entry>, d: nat, i: nat): seq<char> {
    if d < |es| && i < |es| && |es[d].name| <= |es[i].name| then Before(es[i].name[|es[d].name|..], '/') else []
  }

  lemma ComponentText(es: seq<Entry>, d: nat, n: nat, buffer: seq<char>)
    requires EntriesOk(es) && d < |es| && n < |es| && ProperPrefix(es[d].name, es[n].name) && |buffer| >= 100
    requires var part := Component(es, d, n); buffer == part + Zeros(|buffer|)[|part|..]
    ensures Text(buffer) == Component(es, d, n)
  {
    var part, name := Component(es, d, n), es[n].name;
    assert EntryOk(es[n]);
    forall k | 0 <= k < |part|
      ensures buffer[k] != NUL
    {
      assert part[k] == name[|es[d].name| + k] && name[|es[d].name| + k] in name;
    }
    TextIs(buffer, |part|);
  }
}
