/** Reading the files of a tar archive, and that it undoes the ustar encoding. */
module TarArchive {
  import opened Common
  import opened Whitespace

  type Byte = b: nat | b < 256
  type Bytes = seq<Byte>

  predicate IsZero(s: Bytes) {
    forall i | 0 <= i < |s| :: s[i] == 0
  }

  function Zeros(n: nat): (s: Bytes)
    ensures |s| == n && IsZero(s)
  {
    seq(n, _ => 0)
  }

  /** The bytes before the first zero byte. */
  function UpToNul(s: Bytes): Bytes {
    if s == [] || s[0] == 0 then [] else [s[0]] + UpToNul(s[1..])
  }

  /** A text field: what comes before the first zero byte, decoded and trimmed. */
  function ReadString(field: Bytes, utf8: Bytes -> string): string {
    Trim(utf8(UpToNul(field)))
  }

  // ---- numbers ----

  predicate IsOctal(c: char) { '0' <= c <= '7' }

  function OctalRun(s: string): (k: nat)
    ensures k <= |s| && forall i | 0 <= i < k :: IsOctal(s[i])
    ensures k < |s| ==> !IsOctal(s[k])
  {
    if s == "" || !IsOctal(s[0]) then 0 else 1 + OctalRun(s[1..])
  }

  function OctalDigit(c: char): nat
    requires IsOctal(c)
  {
    c as int - '0' as int
  }

  function OctalValue(s: string): nat
    requires forall i | 0 <= i < |s| :: IsOctal(s[i])
  {
    if s == "" then 0 else 8 * OctalValue(s[..|s| - 1]) + OctalDigit(s[|s| - 1])
  }

  /** `parseInt(s, 8)` of a trimmed string: an optional sign and the longest run of octal digits. */
  function ParseOctal(s: string): Option<int> {
    var signed := s != "" && (s[0] == '-' || s[0] == '+');
    var rest := if signed then s[1..] else s;
    var k := OctalRun(rest);
    if k == 0 then None
    else
      var value: int := OctalValue(rest[..k]);
      Some(if signed && s[0] == '-' then -value else value)
  }

  function ReadSize(field: Bytes, utf8: Bytes -> string): Option<int> {
    var s := ReadString(field, utf8);
    if s == "" then Some(0) else ParseOctal(s)
  }

  // ---- names ----

  function StripSlashes(name: string): string {
    if name != "" && name[0] == '/' then StripSlashes(name[1..]) else name
  }

  /** The key a name is filed under. */
  function Key(name: string): string {
    var stripped := StripSlashes(name);
    if stripped == "" then name else stripped
  }

  // ---- reading ----

  const BLOCK: int := 512

  /** The remainder by 512 that JavaScript's `%` gives, which has the sign of the dividend. */
  function Remainder(a: int): int {
    if a >= 0 then a % 512 else -(-a % 512)
  }

  /** What is added to a size to get to the next block. A negative size is padded too. */
  function Padding(size: int): (p: int)
    ensures 0 <= p < BLOCK
  {
    Remainder(BLOCK - Remainder(size))
  }

  /** An index as `subarray` takes it: counted from the end if negative, and kept within bounds. */
  function Index(length: nat, i: int): (k: nat)
    ensures k <= length
  {
    if i >= length then length else if i >= 0 then i else if length + i >= 0 then length + i else 0
  }

  function Subarray(s: Bytes, from: int, to: int): Bytes {
    var a, b := Index(|s|, from), Index(|s|, to);
    if a < b then s[a..b] else []
  }

  /** What the loop finds at an offset: the end, a last file whose size is no number, or a file and where to go on. */
  datatype Found = End | Last(key: string) | File(key: string, content: Bytes, next: int)

  function HeaderKey(header: Bytes, utf8: Bytes -> string): string {
    Key(ReadString(Subarray(header, 0, 100), utf8))
  }

  function HeaderSize(header: Bytes, utf8: Bytes -> string): Option<int> {
    ReadSize(Subarray(header, 124, 136), utf8)
  }

  /** How a header is read: the key a file is filed under, and its size. */
  datatype Reader = Reader(key: Bytes -> string, size: Bytes -> Option<int>)

  function Ustar(utf8: Bytes -> string): Reader {
    Reader((header: Bytes) => HeaderKey(header, utf8), (header: Bytes) => HeaderSize(header, utf8))
  }

  function ReadAt(buffer: Bytes, reader: Reader, offset: int): Found {
    if offset + BLOCK > |buffer| then End
    else
      var header := Subarray(buffer, offset, offset + BLOCK);
      if IsZero(header) then End
      else
        var key, size, body := reader.key(header), reader.size(header), offset + BLOCK;
        if size.None? then Last(key)
        else File(key, Subarray(buffer, body, body + size.value), body + size.value + Padding(size.value))
  }

  /** The loop, as what it finds at every offset. */
  ghost function Walk(buffer: Bytes, reader: Reader): int -> Found {
    (offset: int) => ReadAt(buffer, reader, offset)
  }

  /** The files after at most `k` files more, if the loop ends within them. */
  ghost function Reads(at: int -> Found, offset: int, files: map<string, Bytes>, k: nat): Option<map<string, Bytes>>
    decreases k
  {
    match at(offset)
    case End => Some(files)
    case Last(key) => Some(files[key := []])
    case File(key, content, next) => if k == 0 then None else Reads(at, next, files[key := content], k - 1)
  }

  /** The loop ends, with these files. */
  ghost predicate Extracts(buffer: Bytes, reader: Reader, r: map<string, Bytes>) {
    exists k: nat :: Reads(Walk(buffer, reader), 0, map[], k) == Some(r)
  }

  /** The loop ends when it comes to this offset. */
  ghost predicate Halts(at: int -> Found, offset: int) {
    exists k: nat :: Ends(at, offset, k)
  }

  ghost predicate Ends(at: int -> Found, offset: int, k: nat)
    decreases k
  {
    at(offset).File? ==> k > 0 && Ends(at, at(offset).next, k - 1)
  }

  method AllZero(s: Bytes) returns (zero: bool)
    ensures zero == IsZero(s)
  {
    for i := 0 to |s|
      invariant IsZero(s[..i])
    {
      if s[i] != 0 { return false; }
    }
    assert s[..|s|] == s;
    return true;
  }

  lemma {:induction false} EndsIsReads(at: int -> Found, offset: int, files: map<string, Bytes>, k: nat)
    ensures Ends(at, offset, k) <==> Reads(at, offset, files, k).Some?
    decreases k
  {
    var f := at(offset);
    if f.File? && k > 0 { EndsIsReads(at, f.next, files[f.key := f.content], k - 1); }
  }

  /** `at` is the walk through this archive. */
  ghost predicate IsWalk(at: int -> Found, buffer: Bytes, reader: Reader) {
    forall o {:trigger ReadAt(buffer, reader, o)} :: at(o) == ReadAt(buffer, reader, o)
  }

  /** What one turn of the loop leaves. */
  ghost predicate Turned(f: Found, files: map<string, Bytes>, more: bool, files': map<string, Bytes>, next: int) {
    match f
    case End => !more && files' == files
    case Last(key) => !more && files' == files[key := []]
    case File(key, content, n) => more && files' == files[key := content] && next == n
  }

  /** One turn of the loop: the files with what stands at the offset, and where to go on, if at all. */
  method ReadBlock(buffer: Bytes, reader: Reader, offset: int, files: map<string, Bytes>, ghost at: int -> Found)
    returns (more: bool, files': map<string, Bytes>, next: int)
    requires offset + BLOCK <= |buffer| && IsWalk(at, buffer, reader)
    ensures Turned(at(offset), files, more, files', next)
  {
    next := offset;
    var header := Subarray(buffer, next, next + BLOCK);
    var empty := AllZero(header);
    next := next + BLOCK;
    if empty {
      EmptyAt(at, buffer, reader, offset);
      return false, files, next;
    }
    var key := reader.key(header);
    var size := reader.size(header);
    if size.None? {
      UnreadableAt(at, buffer, reader, offset);
      return false, files[key := []], next;
    }
    var file := Subarray(buffer, next, next + size.value);
    files' := files[key := file];
    next := next + size.value;
    next := next + Padding(size.value);
    more := true;
    FileIsTurned(at, buffer, reader, offset, size.value, key, file, next);
  }

  lemma EmptyAt(at: int -> Found, buffer: Bytes, reader: Reader, offset: int)
    requires IsWalk(at, buffer, reader) && IsZero(Subarray(buffer, offset, offset + BLOCK))
    ensures at(offset) == End
  {
    assert at(offset) == ReadAt(buffer, reader, offset);
  }

  lemma UnreadableAt(at: int -> Found, buffer: Bytes, reader: Reader, offset: int)
    requires IsWalk(at, buffer, reader) && offset + BLOCK <= |buffer|
      && !IsZero(Subarray(buffer, offset, offset + BLOCK))
    requires reader.size(Subarray(buffer, offset, offset + BLOCK)) == None
    ensures at(offset) == Last(reader.key(Subarray(buffer, offset, offset + BLOCK)))
  {
    assert at(offset) == ReadAt(buffer, reader, offset);
  }

  lemma FileIsTurned(at: int -> Found, buffer: Bytes, reader: Reader, offset: int, size: int,
                     key: string, file: Bytes, next: int)
    requires IsWalk(at, buffer, reader) && offset + BLOCK <= |buffer|
      && !IsZero(Subarray(buffer, offset, offset + BLOCK))
    requires reader.size(Subarray(buffer, offset, offset + BLOCK)) == Some(size)
    requires reader.key(Subarray(buffer, offset, offset + BLOCK)) == key
    requires Subarray(buffer, offset + BLOCK, offset + BLOCK + size) == file
    requires next == offset + BLOCK + size + Padding(size)
    ensures at(offset) == File(key, file, next)
  {
    assert at(offset) == ReadAt(buffer, reader, offset);
    FileAt(buffer, reader, offset, size, key, file, next);
  }

  lemma FileAt(buffer: Bytes, reader: Reader, offset: int, size: int, key: string, file: Bytes, next: int)
    requires offset + BLOCK <= |buffer| && !IsZero(Subarray(buffer, offset, offset + BLOCK))
    requires reader.size(Subarray(buffer, offset, offset + BLOCK)) == Some(size)
    requires reader.key(Subarray(buffer, offset, offset + BLOCK)) == key
    requires Subarray(buffer, offset + BLOCK, offset + BLOCK + size) == file
    requires next == offset + BLOCK + size + Padding(size)
    ensures ReadAt(buffer, reader, offset) == File(key, file, next)
  {}

  lemma PastTheEnd(buffer: Bytes, reader: Reader, offset: int, at: int -> Found)
    requires IsWalk(at, buffer, reader) && offset + BLOCK > |buffer|
    ensures at(offset) == End
  {
    assert at(offset) == ReadAt(buffer, reader, offset);
  }

  /** The loop over the blocks of an archive, wherever it ends. */
  method ExtractFiles(buffer: Bytes, utf8: Bytes -> string) returns (files: map<string, Bytes>)
    requires Halts(Walk(buffer, Ustar(utf8)), 0)
    ensures Extracts(buffer, Ustar(utf8), files)
  {
    var reader := Ustar(utf8);
    ghost var all: nat :| Ends(Walk(buffer, reader), 0, all);
    files := ReadAll(buffer, reader, Walk(buffer, reader), all);
  }

  method ReadAll(buffer: Bytes, reader: Reader, ghost at: int -> Found, ghost all: nat)
    returns (files: map<string, Bytes>)
    requires IsWalk(at, buffer, reader) && Ends(at, 0, all)
    ensures Reads(at, 0, map[], all) == Some(files)
  {
    var offset: int, more := 0, true;
    files := map[];
    EndsIsReads(at, 0, files, all);
    ghost var k, r := all, Reads(at, 0, map[], all);
    while more && offset + BLOCK <= |buffer|
      invariant r.Some? && if more then Reads(at, offset, files, k) == r else Some(files) == r
      decreases k, more
    {
      ghost var f := at(offset);
      more, files, offset := ReadBlock(buffer, reader, offset, files, at);
      if f.File? { k := k - 1; }
    }
    if more { PastTheEnd(buffer, reader, offset, at); }
  }

  // ---- where the loop goes, and whether it ends ----

  /** From a header the loop goes on behind the file, rounded up to whole blocks; for a negative size that is the
      number of whole blocks in it, backwards. */
  lemma GoesTo(size: int)
    ensures size >= 0 ==> size + Padding(size) == BLOCK * ((size + 511) / 512)
    ensures size < 0 ==> size + Padding(size) == -BLOCK * (-size / 512)
  {
    if size >= 0 {
      var q, r := size / 512, size % 512;
      assert size == BLOCK * q + r;
      if r == 0 {
        assert (size + 511) / 512 == q;
      } else {
        assert (size + 511) / 512 == q + 1;
      }
    } else {
      var q, r := -size / 512, -size % 512;
      assert -size == BLOCK * q + r && Remainder(size) == -r;
      assert (512 + r) % 512 == r;
    }
  }

  /** The size field of the header at an offset. */
  function SizeAt(buffer: Bytes, reader: Reader, offset: int): Option<int> {
    reader.size(Subarray(buffer, offset, offset + BLOCK))
  }

  /** The offset grows exactly for sizes above -512, and stays where it is exactly for the 512 sizes below. */
  lemma GrowsExactly(buffer: Bytes, reader: Reader, offset: int)
    requires ReadAt(buffer, reader, offset).File?
    ensures SizeAt(buffer, reader, offset).Some?
    ensures var next, size := ReadAt(buffer, reader, offset).next, SizeAt(buffer, reader, offset).value;
      && (next > offset <==> size > -BLOCK)
      && (next == offset <==> -2 * BLOCK < size <= -BLOCK)
  {
    var size := SizeAt(buffer, reader, offset).value;
    GoesTo(size);
    if size < 0 {
      var q := -size / 512;
      assert q == 0 <==> -size < BLOCK;
      assert q == 1 <==> BLOCK <= -size < 2 * BLOCK;
    }
  }

  ghost predicate OnGrid(offset: int) {
    offset >= 0 && offset % 512 == 0
  }

  /** No header of the archive, at a multiple of 512, has a size of -512 or below. */
  ghost predicate SizesAbove(buffer: Bytes, reader: Reader) {
    forall o | OnGrid(o) && o + BLOCK <= |buffer| ::
      SizeAt(buffer, reader, o).Some? ==> SizeAt(buffer, reader, o).value > -BLOCK
  }

  /** In such an archive the loop ends. */
  lemma GrowingHalts(buffer: Bytes, reader: Reader)
    requires SizesAbove(buffer, reader)
    ensures Halts(Walk(buffer, reader), 0)
  {
    var at := Walk(buffer, reader);
    forall o | OnGrid(o) && at(o).File? ensures o < |buffer| && at(o).next > o && OnGrid(at(o).next) {
      StaysOnGrid(buffer, reader, o);
    }
    EndsByGrowing(at, |buffer|, 0, |buffer|);
  }

  lemma StaysOnGrid(buffer: Bytes, reader: Reader, o: int)
    requires SizesAbove(buffer, reader) && OnGrid(o) && ReadAt(buffer, reader, o).File?
    ensures o < |buffer| && ReadAt(buffer, reader, o).next > o && OnGrid(ReadAt(buffer, reader, o).next)
  {
    GrowsExactly(buffer, reader, o);
    var size := SizeAt(buffer, reader, o).value;
    var blocks := Blocks(size);
    assert ReadAt(buffer, reader, o).next == o + 512 * (1 + blocks);
    OneGridFurther(o, 1 + blocks);
  }

  lemma OneGridFurther(o: int, blocks: nat)
    requires OnGrid(o)
    ensures OnGrid(o + 512 * blocks)
  {}

  lemma {:induction false} EndsByGrowing(at: int -> Found, hi: int, o: int, k: nat)
    requires forall p | OnGrid(p) && at(p).File? :: p < hi && at(p).next > p && OnGrid(at(p).next)
    requires OnGrid(o) && k >= hi - o
    ensures Ends(at, o, k)
    decreases k
  {
    if at(o).File? { EndsByGrowing(at, hi, at(o).next, k - 1); }
  }

  lemma Blocks(size: int) returns (blocks: nat)
    requires size > -BLOCK
    ensures size + Padding(size) == BLOCK * blocks
  {
    GoesTo(size);
    blocks := if size >= 0 then (size + 511) / 512 else 0;
  }

  // ---- exactly when the loop ends ----

  /** `k` files lead from one offset to another. */
  ghost predicate Leads(at: int -> Found, from: int, k: nat, to: int)
    decreases k
  {
    if k == 0 then from == to else at(from).File? && Leads(at, at(from).next, k - 1, to)
  }

  /** The loop comes back to this offset. */
  ghost predicate Returns(at: int -> Found, offset: int) {
    exists k: nat :: k > 0 && Leads(at, offset, k, offset)
  }

  lemma {:induction false} EndsAfter(at: int -> Found, from: int, k: nat, to: int, m: nat)
    requires Leads(at, from, k, to) && Ends(at, from, m)
    ensures m >= k && Ends(at, to, m - k)
    decreases k
  {
    if k > 0 { EndsAfter(at, at(from).next, k - 1, to, m - 1); }
  }

  /** A loop that comes back to where it was never ends. */
  lemma {:induction false} ReturningNeverEnds(at: int -> Found, offset: int, k: nat, m: nat)
    requires k > 0 && Leads(at, offset, k, offset)
    ensures !Ends(at, offset, m)
    decreases m
  {
    if Ends(at, offset, m) {
      EndsAfter(at, offset, k, offset, m);
      ReturningNeverEnds(at, offset, k, m - k);
    }
  }

  lemma {:induction false} LeadsOn(at: int -> Found, a: int, k: nat, b: int, l: nat, c: int)
    requires Leads(at, a, k, b) && Leads(at, b, l, c)
    ensures Leads(at, a, k + l, c)
    decreases k
  {
    if k > 0 { LeadsOn(at, at(a).next, k - 1, b, l, c); }
  }

  /** The offsets of the first `k` files of a loop that does not end within them. */
  lemma {:induction false} Trail(at: int -> Found, offset: int, k: nat) returns (t: seq<int>)
    requires !Ends(at, offset, k)
    ensures |t| == k + 1 && (forall i | 0 <= i <= k :: Leads(at, offset, i, t[i]) && at(t[i]).File?)
    ensures forall i, j | 0 <= i <= j <= k :: Leads(at, t[i], j - i, t[j])
    decreases k
  {
    if k == 0 {
      t := [offset];
    } else {
      var next := at(offset).next;
      var rest := Trail(at, next, k - 1);
      t := [offset] + rest;
      assert forall i | 0 < i <= k :: t[i] == rest[i - 1];
      forall i | 0 <= i <= k ensures Leads(at, offset, i, t[i]) && at(t[i]).File? {
        if i > 0 { assert Leads(at, next, i - 1, rest[i - 1]); }
      }
      forall i, j | 0 <= i <= j <= k ensures Leads(at, t[i], j - i, t[j]) {
        if i > 0 { assert Leads(at, rest[i - 1], (j - 1) - (i - 1), rest[j - 1]); }
      }
    }
  }

  function Skip(m: nat, k: nat): nat {
    if m < k then m else m + 1
  }

  function Without(t: seq<int>, k: nat): (r: seq<int>)
    requires k < |t|
    ensures |r| == |t| - 1 && forall m | 0 <= m < |r| :: r[m] == t[Skip(m, k)]
  {
    t[..k] + t[k + 1..]
  }

  /** More numbers than there are in a range: one of them comes twice. */
  lemma {:induction false} Pigeonhole(t: seq<int>, lo: int, hi: int) returns (i: nat, j: nat)
    requires lo <= hi && (forall k | 0 <= k < |t| :: lo <= t[k] < hi) && |t| > hi - lo
    ensures i < j < |t| && t[i] == t[j]
    decreases hi - lo
  {
    assert lo <= t[0] < hi;
    if k :| 0 <= k < |t| && t[k] == hi - 1 {
      if l :| 0 <= l < |t| && l != k && t[l] == hi - 1 {
        i, j := if k < l then k else l, if k < l then l else k;
      } else {
        var rest := Without(t, k);
        forall m | 0 <= m < |rest| ensures lo <= rest[m] < hi - 1 { assert rest[m] == t[Skip(m, k)]; }
        var a, b := Pigeonhole(rest, lo, hi - 1);
        i, j := Skip(a, k), Skip(b, k);
      }
    } else {
      i, j := Pigeonhole(t, lo, hi - 1);
    }
  }

  /** Files stand only within one length of the archive before its beginning. */
  lemma FileIsNear(buffer: Bytes, reader: Reader, offset: int)
    requires ReadAt(buffer, reader, offset).File?
    ensures -|buffer| - BLOCK <= offset < |buffer|
  {
    var header := Subarray(buffer, offset, offset + BLOCK);
    assert header != [];
  }

  /** The loop comes to an offset to which it comes back. */
  ghost predicate Revisits(at: int -> Found) {
    exists k: nat, o: int :: Leads(at, 0, k, o) && Returns(at, o)
  }

  lemma RevisitingNeverEnds(at: int -> Found, m: nat)
    requires Revisits(at)
    ensures !Ends(at, 0, m)
  {
    var k: nat, o: int :| Leads(at, 0, k, o) && Returns(at, o);
    var l: nat :| l > 0 && Leads(at, o, l, o);
    if Ends(at, 0, m) {
      EndsAfter(at, 0, k, o, m);
      ReturningNeverEnds(at, o, l, m - k);
    }
  }

  lemma LongIsRevisiting(at: int -> Found, lo: int, hi: int)
    requires lo <= hi && (forall o | at(o).File? :: lo <= o < hi) && !Ends(at, 0, hi - lo)
    ensures Revisits(at)
  {
    var t := Trail(at, 0, hi - lo);
    var i, j := Pigeonhole(t, lo, hi);
    assert Leads(at, t[i], j - i, t[j]) && Leads(at, 0, i, t[i]);
    assert Returns(at, t[i]);
  }

  /** The offsets at which a file can stand. */
  function Places(buffer: Bytes): nat {
    2 * |buffer| + BLOCK
  }

  /** The loop ends if and only if it never comes back to an offset it has been at, and if and only if it has ended
      after as many files as there are places for them. */
  lemma HaltsExactly(buffer: Bytes, reader: Reader)
    ensures Halts(Walk(buffer, reader), 0) <==> !Revisits(Walk(buffer, reader))
    ensures Halts(Walk(buffer, reader), 0) <==> Ends(Walk(buffer, reader), 0, Places(buffer))
  {
    var at := Walk(buffer, reader);
    forall o | at(o).File? ensures -|buffer| - BLOCK <= o < |buffer| { FileIsNear(buffer, reader, o); }
    EndsIffNeverRevisits(at, -|buffer| - BLOCK, |buffer|, Places(buffer));
  }

  lemma EndsIffNeverRevisits(at: int -> Found, lo: int, hi: int, places: nat)
    requires places == hi - lo && forall o | at(o).File? :: lo <= o < hi
    ensures Halts(at, 0) <==> !Revisits(at)
    ensures Halts(at, 0) <==> Ends(at, 0, places)
  {
    if Revisits(at) {
      forall m: nat ensures !Ends(at, 0, m) { RevisitingNeverEnds(at, m); }
    } else if !Ends(at, 0, places) {
      LongIsRevisiting(at, lo, hi);
    }
  }

  /** A header with a size from -1023 to -512 is read again and again. */
  lemma StandingStill(buffer: Bytes, reader: Reader, offset: int)
    requires ReadAt(buffer, reader, offset).File? && SizeAt(buffer, reader, offset).Some?
    requires -2 * BLOCK < SizeAt(buffer, reader, offset).value <= -BLOCK
    ensures !Halts(Walk(buffer, reader), offset)
  {
    var at := Walk(buffer, reader);
    GrowsExactly(buffer, reader, offset);
    assert Leads(at, at(offset).next, 0, offset);
    assert Leads(at, offset, 1, offset);
    forall m: nat ensures !Ends(at, offset, m) { ReturningNeverEnds(at, offset, 1, m); }
  }
}
