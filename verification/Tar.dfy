/** The tar archive in the kernel image (sys/tarfs.c): octal sizes, the walk over the headers, and the look-up of a
    name. An archive is laid out as the "ustar Interchange Format" of the pax utility in IEEE Std 1003.1 says: for each
    entry a header of 512 bytes, then the content, padded to a multiple of 512. */
module Tar {
  import opened CStrings

  const BLOCK: nat := 512

  // ----- 32-bit arithmetic

  /** What a 32-bit int keeps of `x`. */
  function Wrap(x: int): (w: int)
    ensures -0x8000_0000 <= w < 0x8000_0000
    ensures -0x8000_0000 <= x < 0x8000_0000 ==> w == x
  {
    (x + 0x8000_0000) % 0x1_0000_0000 - 0x8000_0000
  }

  lemma WrapMod(x: int)
    ensures exists q: int :: Wrap(x) == x - 0x1_0000_0000 * q
  {
    var q := (x + 0x8000_0000) / 0x1_0000_0000;
    assert Wrap(x) == x - 0x1_0000_0000 * q;
  }

  /** The wrapped number is the one in the range of an int that differs by a multiple of 2 ^ 32. */
  lemma WrapIsOnly(x: int, w: int)
    requires -0x8000_0000 <= w < 0x8000_0000
    ensures w == Wrap(x) <==> (x - w) % 0x1_0000_0000 == 0
  {
  }

  lemma WrapAdd(x: int, y: int)
    ensures Wrap(Wrap(x) + y) == Wrap(x + y)
  {
    WrapMod(x);
    var q: int :| Wrap(x) == x - 0x1_0000_0000 * q;
    WrapShift(x + y, -q);
  }

  lemma WrapShift(x: int, q: int)
    ensures Wrap(x + 0x1_0000_0000 * q) == Wrap(x)
  {
  }

  // ----- octal numbers

  function Pow8(k: nat): (p: nat)
    ensures p >= 1
  {
    if k == 0 then 1 else 8 * Pow8(k - 1)
  }

  function Digit(c: char): int {
    c as int - '0' as int
  }

  /** The number that a string of digits spells in base 8. */
  function Value(s: seq<char>): int {
    if s == [] then 0 else Digit(s[0]) * Pow8(|s| - 1) + Value(s[1..])
  }

  /** The `k` octal digits of `n`, as an archiver prints them. */
  function Octal(n: nat, k: nat): (s: seq<char>)
    ensures |s| == k
  {
    if k == 0 then [] else Octal(n / 8, k - 1) + [('0' as int + n % 8) as char]
  }

  lemma {:induction false} ValueAppend(s: seq<char>, c: char)
    ensures Value(s + [c]) == 8 * Value(s) + Digit(c)
  {
    if s == [] {
      assert Value([c]) == Digit(c) * Pow8(0) + Value([]);
    } else {
      assert (s + [c])[1..] == s[1..] + [c];
      ValueAppend(s[1..], c);
    }
  }

  lemma OctalDigits()
    ensures forall d :: 0 <= d < 8 ==> Digit("01234567"[d]) == d
    ensures Value("17") == 15
  {
    assert "17"[1..] == "7" && "7"[1..] == "";
    assert Value("7") == 7;
  }

  /** Reading undoes printing, for every number that fits. */
  lemma {:induction false} OctalRoundTrip(n: nat, k: nat)
    requires n < Pow8(k)
    ensures Value(Octal(n, k)) == n
  {
    if k > 0 {
      OctalRoundTrip(n / 8, k - 1);
      ValueAppend(Octal(n / 8, k - 1), ('0' as int + n % 8) as char);
    }
  }

  lemma PowersOf8()
    ensures Pow8(10) == 0x4000_0000 && Pow8(11) == 0x2_0000_0000
  {
    assert Pow8(5) == 0x8000;
    assert Pow8(10) == 8 * 8 * 8 * 8 * 8 * Pow8(5);
  }

  lemma {:induction false} Pow8Monotone(j: nat, k: nat)
    requires j <= k
    ensures Pow8(j) <= Pow8(k)
    decreases k
  {
    if j < k {
      Pow8Monotone(j, k - 1);
    }
  }

  /** convert_oct_int: the value of the eleven digits, in 32 bits. */
  method ConvertOctInt(octString: seq<char>) returns (fileSize: int)
    requires |octString| >= 11
    ensures fileSize == Wrap(Value(octString[..11]))
  {
    ghost var s := octString[..11];
    fileSize := 0;
    var f := 1;
    var i := 10;
    while i >= 0
      invariant -1 <= i <= 10
      invariant fileSize == Wrap(Value(s[i + 1..]))
      invariant f == Wrap(Pow8(10 - i))
    {
      PowersOf8();
      Pow8Monotone(10 - i, 10);
      assert f == Pow8(10 - i);
      assert s[i..][1..] == s[i + 1..];
      assert Value(s[i..]) == Digit(s[i]) * f + Value(s[i + 1..]);
      WrapAdd(Value(s[i + 1..]), Digit(s[i]) * f);
      fileSize := Wrap(fileSize + (octString[i] as int - '0' as int) * f);
      f := Wrap(f * 8);
      i := i - 1;
    }
    assert s[0..] == s;
  }

  // ----- entries and archives

  /** An entry: its name, the three number fields behind it, its content, and the rest of the header from the byte that
      ends the size field. */
  datatype Entry = Entry(name: seq<char>, ids: seq<char>, content: seq<char>, rest: seq<char>)

  function Zeros(n: nat): seq<char> {
    seq(n, _ => NUL)
  }

  function Padding(n: nat): (p: nat)
    ensures (n + p) % BLOCK == 0 && p < BLOCK
  {
    (BLOCK - n % BLOCK) % BLOCK
  }

  /** Names are shorter than the field and free of NULs. The padded content and one more block stay below 2 GB. */
  ghost predicate EntryOk(e: Entry) {
    && 0 < |e.name| < 100 && NUL !in e.name && |e.ids| == 24 && |e.rest| == 377
    && Fits(|e.content|)
  }

  predicate Fits(n: nat) {
    n + Padding(n) + BLOCK < 0x8000_0000
  }

  function Header(e: Entry): seq<char>
    requires |e.name| < 100
  {
    e.name + Zeros(100 - |e.name|) + e.ids + Octal(|e.content|, 11) + e.rest
  }

  function Laid(e: Entry): seq<char>
    requires |e.name| < 100
  {
    Header(e) + e.content + Zeros(Padding(|e.content|))
  }

  ghost predicate EntriesOk(es: seq<Entry>) {
    forall i :: 0 <= i < |es| ==> EntryOk(es[i])
  }

  ghost function Archive(es: seq<Entry>): seq<char>
    requires EntriesOk(es)
  {
    if es == [] then [] else Laid(es[0]) + Archive(es[1..])
  }

  /** Where entry `i` begins. */
  ghost function Offset(es: seq<Entry>, i: nat): nat
    requires EntriesOk(es) && i <= |es|
  {
    |Archive(es[..i])|
  }

  /** Division as in C, towards zero. */
  function Quotient(a: int, b: nat): int
    requires b > 0
  {
    if a >= 0 then a / b else -((-a) / b)
  }

  /** get_next_tar_header: the header behind the one at `at`, for a size field that was read as `fileSize`. */
  function NextOffset(at: int, fileSize: int): int {
    if fileSize % BLOCK == 0 then at + Wrap((Quotient(fileSize, BLOCK) + 1) * BLOCK)
    else at + Wrap((Quotient(fileSize, BLOCK) + 2) * BLOCK)
  }

  method GetNextTarHeader(image: seq<char>, at: nat) returns (r: int)
    requires at + BLOCK <= |image|
    ensures r == NextOffset(at, Wrap(Value(image[at + 124..at + 135])))
  {
    var size := ConvertOctInt(image[at + 124..at + 136]);
    assert image[at + 124..at + 136][..11] == image[at + 124..at + 135];
    if size % BLOCK == 0 {
      r := at + Wrap((Quotient(size, BLOCK) + 1) * BLOCK);
    } else {
      r := at + Wrap((Quotient(size, BLOCK) + 2) * BLOCK);
    }
  }

  /** The step lands behind the padded content if and only if the padded size and one block stay below 2 GB; otherwise
      the 32-bit sum wraps around. */
  lemma StepIsExactIff(at: nat, n: nat)
    requires n < 0x8000_0000
    ensures NextOffset(at, n) == at + BLOCK + n + Padding(n) <==> Fits(n)
    ensures !Fits(n) ==> NextOffset(at, n) == at + BLOCK + n + Padding(n) - 0x1_0000_0000 < at
  {
    var x := n + Padding(n) + BLOCK;
    assert NextOffset(at, n) == at + Wrap(x) by {
      if n % BLOCK == 0 {
        assert (n / BLOCK + 1) * BLOCK == x;
      } else {
        assert (n / BLOCK + 2) * BLOCK == x;
      }
    }
    WrapMod(x);
  }

  /** A size that came out negative, as sizes of 2 GB and more do: the quotient is cut towards zero. */
  lemma NegativeSizeSteps(at: nat, s: int)
    requires -0x8000_0000 <= s < 0
    ensures NextOffset(at, s) == at + s + if s % 512 == 0 then 512 else (-s) % 512 + 1024
  {
    assert -s == (-s) / 512 * 512 + (-s) % 512;
    assert s % 512 == 0 <==> (-s) % 512 == 0;
  }

  /** The smallest size with which the walk goes back, by 2 GB. */
  lemma LargeSizeStepsBack(at: nat)
    ensures NextOffset(at, 0x7fff_fc01) == at - 0x8000_0000 && forall n: nat :: n < 0x7fff_fc01 ==> Fits(n)
  {
    StepIsExactIff(at, 0x7fff_fc01);
    forall n: nat | n < 0x7fff_fc01
      ensures Fits(n)
    {
      PaddedBelow(n);
    }
  }

  lemma PaddedBelow(n: nat)
    requires n < 0x7fff_fc01
    ensures n + Padding(n) <= 0x7fff_fc00
  {
  }

  lemma LaidParts(e: Entry)
    requires EntryOk(e)
    ensures |Header(e)| == BLOCK && |Laid(e)| == BLOCK + |e.content| + Padding(|e.content|)
    ensures Laid(e)[124..135] == Octal(|e.content|, 11)
    ensures Laid(e)[..|e.name|] == e.name && Laid(e)[|e.name|] == NUL
    ensures Laid(e)[BLOCK..BLOCK + |e.content|] == e.content
  {
    var h := Header(e);
    assert h[124..135] == Octal(|e.content|, 11);
    assert Laid(e)[124..135] == h[124..135];
  }

  lemma {:induction false} ArchiveConcat(es: seq<Entry>, fs: seq<Entry>)
    requires EntriesOk(es) && EntriesOk(fs)
    ensures Archive(es + fs) == Archive(es) + Archive(fs)
  {
    if es == [] {
      assert es + fs == fs;
    } else {
      assert (es + fs)[1..] == es[1..] + fs;
      ArchiveConcat(es[1..], fs);
    }
  }

  /** Entry `i` occupies the archive from its offset to the next entry's. */
  lemma EntryAt(es: seq<Entry>, i: nat)
    requires EntriesOk(es) && i < |es|
    ensures Offset(es, i + 1) == Offset(es, i) + |Laid(es[i])| <= |Archive(es)|
    ensures Archive(es)[Offset(es, i)..Offset(es, i + 1)] == Laid(es[i])
  {
    assert es == es[..i + 1] + es[i + 1..] && es[..i + 1] == es[..i] + [es[i]];
    ArchiveConcat(es[..i + 1], es[i + 1..]);
    ArchiveConcat(es[..i], [es[i]]);
    assert Archive([es[i]]) == Laid(es[i]) + Archive([]);
  }

  lemma SizeFieldAt(es: seq<Entry>, i: nat)
    requires EntriesOk(es) && i < |es|
    ensures Offset(es, i) + BLOCK <= |Archive(es)|
    ensures Archive(es)[Offset(es, i) + 124..Offset(es, i) + 135] == Octal(|es[i].content|, 11)
  {
    EntryAt(es, i);
    LaidParts(es[i]);
    SubSlice(Archive(es), Offset(es, i), Offset(es, i + 1), 124, 135);
  }

  lemma SubSlice(s: seq<char>, a: nat, b: nat, i: nat, j: nat)
    requires a <= b <= |s| && i <= j <= b - a
    ensures s[a..b][i..j] == s[a + i..a + j]
  {
    forall k | 0 <= k < j - i
      ensures s[a..b][i..j][k] == s[a + i..a + j][k]
    {
      assert s[a..b][i + k] == s[a + i + k];
    }
  }

  lemma SizeReads(n: nat)
    requires n < 0x8000_0000
    ensures Wrap(Value(Octal(n, 11))) == n
  {
    PowersOf8();
    OctalRoundTrip(n, 11);
    assert Value(Octal(n, 11)) == n;
  }

  /** The walk inverts the layout: from the header of entry `i` the next step leads to the header of entry `i + 1`, and
      from the last one to the end of the archive. */
  lemma WalkVisitsEntries(es: seq<Entry>, i: nat)
    requires EntriesOk(es) && i < |es|
    ensures Offset(es, 0) == 0 && Offset(es, |es|) == |Archive(es)|
    ensures Offset(es, i) + BLOCK <= |Archive(es)|
    ensures NextOffset(Offset(es, i), Wrap(Value(Archive(es)[Offset(es, i) + 124..Offset(es, i) + 135])))
            == Offset(es, i + 1)
  {
    assert EntryOk(es[i]);
    SizeFieldAt(es, i);
    SizeReads(|es[i].content|);
    StepIsExactIff(Offset(es, i), |es[i].content|);
    EntryAt(es, i);
    LaidParts(es[i]);
    assert es[..|es|] == es;
  }

  /** The string at the header of entry `i` is its name. */
  lemma NameAt(es: seq<Entry>, i: nat)
    requires EntriesOk(es) && i < |es|
    ensures Offset(es, i) < |Archive(es)|
    ensures Terminated(Archive(es)[Offset(es, i)..]) && Text(Archive(es)[Offset(es, i)..]) == es[i].name
  {
    EntryAt(es, i);
    LaidParts(es[i]);
    var s, laid := Archive(es)[Offset(es, i)..], Laid(es[i]);
    assert s[..|laid|] == laid;
    assert s[..|es[i].name|] == laid[..|es[i].name|];
    TextIs(s, |es[i].name|);
  }

  lemma {:induction false} OffsetsAscend(es: seq<Entry>, i: nat, j: nat)
    requires EntriesOk(es) && i <= j <= |es|
    ensures Offset(es, i) <= Offset(es, j) && (i < j ==> Offset(es, i) < Offset(es, j))
  {
    if i < j {
      OffsetsAscend(es, i, j - 1);
      OffsetGrows(es, j - 1);
    }
  }

  lemma OffsetGrows(es: seq<Entry>, i: nat)
    requires EntriesOk(es) && i < |es|
    ensures Offset(es, i) < Offset(es, i + 1)
  {
    EntryAt(es, i);
    LaidParts(es[i]);
  }

  lemma InsideArchive(es: seq<Entry>, i: nat)
    requires EntriesOk(es) && i <= |es|
    ensures Offset(es, i) < |Archive(es)| <==> i < |es|
  {
    OffsetsAscend(es, i, |es|);
    assert es[..|es|] == es;
  }

  /** One step of a walk that has reached entry `i`. */
  method Advance(image: seq<char>, header: nat, ghost es: seq<Entry>, ghost i: nat) returns (r: nat)
    requires EntriesOk(es) && image == Archive(es) && i < |es| && header == Offset(es, i)
    ensures r == Offset(es, i + 1)
  {
    WalkVisitsEntries(es, i);
    r := GetNextTarHeader(image, header);
  }

  /** file_exists: 1 exactly for the names in the archive. */
  method FileExists(image: seq<char>, name: seq<char>, ghost es: seq<Entry>) returns (r: int)
    requires EntriesOk(es) && image == Archive(es) && Terminated(name)
    ensures r == if exists i :: 0 <= i < |es| && es[i].name == Text(name) then 1 else -1
  {
    var header := 0;
    ghost var i := 0;
    InsideArchive(es, 0);
    while header < |image|
      invariant i <= |es| && header == Offset(es, i) && (header < |image| <==> i < |es|)
      invariant forall j :: 0 <= j < i ==> es[j].name != Text(name)
      decreases |es| - i
    {
      NameAt(es, i);
      var c := StrCompare1(image[header..], name);
      if c == 0 {
        return 1;
      }
      header := Advance(image, header, es, i);
      i := i + 1;
      InsideArchive(es, i);
    }
    return -1;
  }
}
