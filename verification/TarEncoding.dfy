/** The ustar encoding of files, and that reading an archive undoes it. */
module TarEncoding {
  import opened Common
  import opened Whitespace
  import opened TarArchive

  /** A file with its name and the header fields the reader ignores. */
  datatype Entry = Entry(name: Bytes, content: Bytes, fields: Bytes, mark: Byte, tail: Bytes)

  function Pow8(k: nat): nat {
    if k == 0 then 1 else 8 * Pow8(k - 1)
  }

  /** `n` in octal, with leading zeros. */
  function Octal(n: nat, width: nat): (s: Bytes)
    ensures |s| == width
  {
    if width == 0 then [] else Octal(n / 8, width - 1) + [48 + n % 8]
  }

  predicate GoodEntry(e: Entry) {
    && 0 < |e.name| <= 100 && (forall i | 0 <= i < |e.name| :: e.name[i] != 0)
    && |e.content| < Pow8(11)
    && |e.fields| == 24 && |e.tail| == 376
    && (e.mark == 0 || e.mark == 32)
  }

  function Header(e: Entry): Bytes
    requires GoodEntry(e)
  {
    e.name + Zeros(100 - |e.name|) + e.fields + (Octal(|e.content|, 11) + [e.mark]) + e.tail
  }

  function EncodeEntry(e: Entry): Bytes
    requires GoodEntry(e)
  {
    Header(e) + (e.content + Zeros(Padding(|e.content|)))
  }

  predicate GoodEntries(entries: seq<Entry>) {
    forall i | 0 <= i < |entries| :: GoodEntry(entries[i])
  }

  /** The entries one after the other, followed by `end`. */
  function Encode(entries: seq<Entry>, end: Bytes): Bytes
    requires GoodEntries(entries)
  {
    if entries == [] then end else EncodeEntry(entries[0]) + Encode(entries[1..], end)
  }

  /** An archive ends with a zero block, or breaks off before a whole block. */
  predicate EndsArchive(end: Bytes) {
    |end| < BLOCK || IsZero(end[..BLOCK])
  }

  function Chars(s: Bytes): string {
    seq(|s|, i requires 0 <= i < |s| => s[i] as char)
  }

  predicate Ascii(s: Bytes) {
    forall i | 0 <= i < |s| :: s[i] < 128
  }

  /** All that is asked of the decoder: ASCII bytes stand for themselves. */
  ghost predicate DecodesAscii(utf8: Bytes -> string) {
    forall s: Bytes | Ascii(s) :: utf8(s) == Chars(s)
  }

  function KeyOf(e: Entry, utf8: Bytes -> string): string {
    Key(Trim(utf8(e.name)))
  }

  /** Filing the entries in order. */
  function Filed(entries: seq<Entry>, utf8: Bytes -> string, files: map<string, Bytes>): map<string, Bytes> {
    if entries == [] then files
    else Filed(entries[1..], utf8, files[KeyOf(entries[0], utf8) := entries[0].content])
  }

  // ---- the header fields are read back ----

  lemma {:induction false} UpToNulPrefix(s: Bytes, more: Bytes)
    requires forall i | 0 <= i < |s| :: s[i] != 0
    requires more == [] || more[0] == 0
    ensures UpToNul(s + more) == s
  {
    if s == [] {
      assert s + more == more;
    } else {
      assert (s + more)[1..] == s[1..] + more;
      UpToNulPrefix(s[1..], more);
      assert [s[0]] + s[1..] == s;
    }
  }

  lemma {:induction false} OctalIsDigits(n: nat, width: nat)
    ensures forall i | 0 <= i < width :: 48 <= Octal(n, width)[i] < 56
  {
    if width > 0 { OctalIsDigits(n / 8, width - 1); }
  }

  lemma {:induction false} OctalRunAll(s: string)
    requires forall i | 0 <= i < |s| :: IsOctal(s[i])
    ensures OctalRun(s) == |s|
  {}

  /** Octal digits are read back as the number they were written for. */
  lemma {:induction false} OctalReadsBack(n: nat, width: nat)
    requires n < Pow8(width)
    ensures forall i | 0 <= i < width :: IsOctal(Chars(Octal(n, width))[i])
    ensures OctalValue(Chars(Octal(n, width))) == n
  {
    OctalIsDigits(n, width);
    if width > 0 {
      OctalReadsBack(n / 8, width - 1);
      var s := Chars(Octal(n, width));
      assert s[..width - 1] == Chars(Octal(n / 8, width - 1));
    }
  }

  lemma {:induction false} TrimSolid(s: string)
    requires s != "" && !IsSpace(s[0]) && !IsSpace(s[|s| - 1])
    ensures Trim(s) == s && Trim(s + " ") == s
  {
    var t := s + " ";
    assert TrimLeft(t) == t && t[..|t| - 1] == s;
    assert TrimRight(t) == TrimRight(s);
  }

  lemma DigitsParse(s: string)
    requires s != "" && forall i | 0 <= i < |s| :: IsOctal(s[i])
    ensures ParseOctal(s) == Some(OctalValue(s))
  {
    assert IsOctal(s[0]);
    OctalRunAll(s);
    assert s[..|s|] == s;
  }

  lemma SizeText(digits: Bytes, mark: Byte, utf8: Bytes -> string)
    requires digits != [] && (forall i | 0 <= i < |digits| :: 48 <= digits[i] < 56)
    requires (mark == 0 || mark == 32) && DecodesAscii(utf8)
    ensures ReadString(digits + [mark], utf8) == Chars(digits)
  {
    var s := Chars(digits);
    assert !IsSpace(s[0]) && !IsSpace(s[|s| - 1]);
    TrimSolid(s);
    if mark == 0 {
      UpToNulPrefix(digits, [mark]);
    } else {
      UpToNulPrefix(digits + [mark], []);
      assert digits + [mark] + [] == digits + [mark];
      assert Chars(digits + [mark]) == s + " ";
    }
  }

  lemma SizeReadsBack(n: nat, mark: Byte, utf8: Bytes -> string)
    requires n < Pow8(11) && (mark == 0 || mark == 32) && DecodesAscii(utf8)
    ensures ReadSize(Octal(n, 11) + [mark], utf8) == Some(n)
  {
    OctalIsDigits(n, 11);
    SizeText(Octal(n, 11), mark, utf8);
    OctalReadsBack(n, 11);
    DigitsParse(Chars(Octal(n, 11)));
  }

  lemma HeaderFields(e: Entry)
    requires GoodEntry(e)
    ensures var h := Header(e);
      && |h| == BLOCK && !IsZero(h)
      && h[..100] == e.name + Zeros(100 - |e.name|)
      && h[124..136] == Octal(|e.content|, 11) + [e.mark]
  {
    var h := Header(e);
    assert h[0] == e.name[0];
  }

  lemma HeaderReadsBack(e: Entry, utf8: Bytes -> string)
    requires GoodEntry(e) && DecodesAscii(utf8)
    ensures var h := Header(e);
      && |h| == BLOCK && !IsZero(h)
      && HeaderKey(h, utf8) == KeyOf(e, utf8) && HeaderSize(h, utf8) == Some(|e.content|)
  {
    HeaderFields(e);
    var h := Header(e);
    assert Subarray(h, 0, 100) == h[..100] && Subarray(h, 124, 136) == h[124..136];
    UpToNulPrefix(e.name, Zeros(100 - |e.name|));
    SizeReadsBack(|e.content|, e.mark, utf8);
  }

  lemma Pieces(pre: Bytes, h: Bytes, content: Bytes, pad: Bytes, more: Bytes)
    requires |h| == BLOCK
    ensures var all := pre + (h + (content + pad) + more);
      && |all| == |pre| + BLOCK + |content| + |pad| + |more|
      && Subarray(all, |pre|, |pre| + BLOCK) == h
      && Subarray(all, |pre| + BLOCK, |pre| + BLOCK + |content|) == content
  {
    var all := pre + (h + (content + pad) + more);
    assert all[|pre|..|pre| + BLOCK] == h;
    assert all[|pre| + BLOCK..|pre| + BLOCK + |content|] == content;
  }

  /** The loop finds the entry that stands at the offset and goes on behind it. */
  lemma EntryIsFound(pre: Bytes, e: Entry, more: Bytes, utf8: Bytes -> string)
    requires GoodEntry(e) && DecodesAscii(utf8)
    ensures ReadAt(pre + (EncodeEntry(e) + more), Ustar(utf8), |pre|)
         == File(KeyOf(e, utf8), e.content, |pre + EncodeEntry(e)|)
  {
    HeaderReadsBack(e, utf8);
    var all, h, next := EntryPieces(pre, e, more);
    FoundAt(all, |pre|, h, e, utf8, next);
  }

  lemma EntryPieces(pre: Bytes, e: Entry, more: Bytes) returns (all: Bytes, h: Bytes, next: int)
    requires GoodEntry(e) && |Header(e)| == BLOCK
    ensures all == pre + (EncodeEntry(e) + more) && h == Header(e) && next == |pre + EncodeEntry(e)|
    ensures |pre| + BLOCK <= |all| && next == |pre| + BLOCK + |e.content| + Padding(|e.content|)
    ensures Subarray(all, |pre|, |pre| + BLOCK) == h
    ensures Subarray(all, |pre| + BLOCK, |pre| + BLOCK + |e.content|) == e.content
  {
    all, h, next := pre + (EncodeEntry(e) + more), Header(e), |pre + EncodeEntry(e)|;
    Pieces(pre, Header(e), e.content, Zeros(Padding(|e.content|)), more);
  }

  lemma FoundAt(all: Bytes, offset: nat, h: Bytes, e: Entry, utf8: Bytes -> string, next: int)
    requires offset + BLOCK <= |all| && Subarray(all, offset, offset + BLOCK) == h && !IsZero(h)
    requires HeaderKey(h, utf8) == KeyOf(e, utf8) && HeaderSize(h, utf8) == Some(|e.content|)
    requires Subarray(all, offset + BLOCK, offset + BLOCK + |e.content|) == e.content
    requires next == offset + BLOCK + |e.content| + Padding(|e.content|)
    ensures ReadAt(all, Ustar(utf8), offset) == File(KeyOf(e, utf8), e.content, next)
  {
    FileAt(all, Ustar(utf8), offset, |e.content|, KeyOf(e, utf8), e.content, next);
  }

  lemma EndIsFound(pre: Bytes, end: Bytes, utf8: Bytes -> string)
    requires EndsArchive(end)
    ensures ReadAt(pre + end, Ustar(utf8), |pre|) == End
  {
    if |end| >= BLOCK { assert Subarray(pre + end, |pre|, |pre| + BLOCK) == end[..BLOCK]; }
  }

  lemma Associative(a: Bytes, b: Bytes, c: Bytes)
    ensures a + (b + c) == (a + b) + c
  {}

  /** Reading undoes encoding: from the offset where the entries start, the files are the entries filed in order. */
  lemma {:induction false} RoundTripFrom(at: int -> Found, buffer: Bytes, pre: Bytes, entries: seq<Entry>, end: Bytes,
                                        utf8: Bytes -> string, files: map<string, Bytes>)
    requires GoodEntries(entries) && EndsArchive(end) && DecodesAscii(utf8)
    requires buffer == pre + Encode(entries, end) && IsWalk(at, buffer, Ustar(utf8))
    ensures Reads(at, |pre|, files, |entries|) == Some(Filed(entries, utf8, files))
    decreases |entries|
  {
    if entries == [] {
      assert at(|pre|) == ReadAt(buffer, Ustar(utf8), |pre|);
      EndIsFound(pre, end, utf8);
    } else {
      var e, more := entries[0], Encode(entries[1..], end);
      WalkFinds(at, buffer, pre, e, more, utf8);
      RoundTripFrom(at, buffer, pre + EncodeEntry(e), entries[1..], end, utf8, files[KeyOf(e, utf8) := e.content]);
    }
  }

  lemma WalkFinds(at: int -> Found, buffer: Bytes, pre: Bytes, e: Entry, more: Bytes, utf8: Bytes -> string)
    requires GoodEntry(e) && DecodesAscii(utf8) && buffer == pre + (EncodeEntry(e) + more)
      && IsWalk(at, buffer, Ustar(utf8))
    ensures at(|pre|) == File(KeyOf(e, utf8), e.content, |pre + EncodeEntry(e)|)
    ensures buffer == (pre + EncodeEntry(e)) + more
  {
    assert at(|pre|) == ReadAt(buffer, Ustar(utf8), |pre|);
    EntryIsFound(pre, e, more, utf8);
    Associative(pre, EncodeEntry(e), more);
  }

  /** Reading undoes encoding: the loop ends, and the files are the entries filed in order. */
  lemma RoundTrip(entries: seq<Entry>, end: Bytes, utf8: Bytes -> string)
    requires GoodEntries(entries) && EndsArchive(end) && DecodesAscii(utf8)
    ensures Halts(Walk(Encode(entries, end), Ustar(utf8)), 0)
    ensures Extracts(Encode(entries, end), Ustar(utf8), Filed(entries, utf8, map[]))
  {
    var at := Walk(Encode(entries, end), Ustar(utf8));
    assert [] + Encode(entries, end) == Encode(entries, end);
    RoundTripFrom(at, Encode(entries, end), [], entries, end, utf8, map[]);
    EndsIsReads(at, 0, map[], |entries|);
  }

  lemma {:induction false} ReadsMore(at: int -> Found, offset: int, files: map<string, Bytes>, k: nat, l: nat)
    requires Reads(at, offset, files, k).Some? && k <= l
    ensures Reads(at, offset, files, l) == Reads(at, offset, files, k)
    decreases k
  {
    var f := at(offset);
    if f.File? { ReadsMore(at, f.next, files[f.key := f.content], k - 1, l - 1); }
  }

  /** What is extracted is determined by the archive. */
  lemma ExtractsOnce(buffer: Bytes, reader: Reader, r1: map<string, Bytes>, r2: map<string, Bytes>)
    requires Extracts(buffer, reader, r1) && Extracts(buffer, reader, r2)
    ensures r1 == r2
  {
    var at := Walk(buffer, reader);
    var k: nat :| Reads(at, 0, map[], k) == Some(r1);
    var l: nat :| Reads(at, 0, map[], l) == Some(r2);
    if k <= l { ReadsMore(at, 0, map[], k, l); } else { ReadsMore(at, 0, map[], l, k); }
  }

  // ---- what is filed ----

  /** The last entry with a key. */
  predicate IsLast(entries: seq<Entry>, i: nat, utf8: Bytes -> string) {
    i < |entries| && forall j | i < j < |entries| :: KeyOf(entries[j], utf8) != KeyOf(entries[i], utf8)
  }

  predicate HasKey(entries: seq<Entry>, k: string, utf8: Bytes -> string) {
    exists i | 0 <= i < |entries| :: KeyOf(entries[i], utf8) == k
  }

  /** A key no entry has is left alone. */
  lemma {:induction false} OtherKeysKept(entries: seq<Entry>, utf8: Bytes -> string, files: map<string, Bytes>,
                                         k: string)
    requires !HasKey(entries, k, utf8)
    ensures var filed := Filed(entries, utf8, files);
      (k in filed <==> k in files) && (k in files ==> filed[k] == files[k])
  {
    if entries != [] {
      var more := entries[1..];
      assert KeyOf(entries[0], utf8) != k;
      assert forall i | 0 <= i < |more| :: more[i] == entries[i + 1];
      OtherKeysKept(more, utf8, files[KeyOf(entries[0], utf8) := entries[0].content], k);
    }
  }

  lemma {:induction false} LastIsKept(entries: seq<Entry>, utf8: Bytes -> string, files: map<string, Bytes>, i: nat)
    requires IsLast(entries, i, utf8)
    ensures var filed, k := Filed(entries, utf8, files), KeyOf(entries[i], utf8);
      k in filed && filed[k] == entries[i].content
    decreases i
  {
    var more := entries[1..];
    var next := files[KeyOf(entries[0], utf8) := entries[0].content];
    assert forall j | 0 <= j < |more| :: more[j] == entries[j + 1];
    if i == 0 {
      OtherKeysKept(more, utf8, next, KeyOf(entries[0], utf8));
    } else {
      LastIsKept(more, utf8, next, i - 1);
    }
  }

  lemma {:induction false} LastExists(entries: seq<Entry>, k: string, utf8: Bytes -> string) returns (i: nat)
    requires HasKey(entries, k, utf8)
    ensures IsLast(entries, i, utf8) && KeyOf(entries[i], utf8) == k
  {
    var n := |entries| - 1;
    if KeyOf(entries[n], utf8) == k {
      i := n;
    } else {
      i := LastExists(entries[..n], k, utf8);
      assert forall j | i < j < n :: entries[..n][j] == entries[j];
    }
  }

  /** The keys filed are those of the entries, each with the content of the last entry that has it. */
  lemma LastWins(entries: seq<Entry>, utf8: Bytes -> string)
    ensures forall k :: k in Filed(entries, utf8, map[]) <==> HasKey(entries, k, utf8)
    ensures forall i: nat | IsLast(entries, i, utf8) ::
      var k := KeyOf(entries[i], utf8);
      k in Filed(entries, utf8, map[]) && Filed(entries, utf8, map[])[k] == entries[i].content
  {
    forall k ensures k in Filed(entries, utf8, map[]) <==> HasKey(entries, k, utf8) {
      if HasKey(entries, k, utf8) {
        var i := LastExists(entries, k, utf8);
        LastIsKept(entries, utf8, map[], i);
      } else {
        OtherKeysKept(entries, utf8, map[], k);
      }
    }
    forall i: nat | IsLast(entries, i, utf8)
      ensures var k := KeyOf(entries[i], utf8);
        k in Filed(entries, utf8, map[]) && Filed(entries, utf8, map[])[k] == entries[i].content
    {
      LastIsKept(entries, utf8, map[], i);
    }
  }

  /** A plain name: printable at both ends and not starting with a slash. */
  predicate PlainName(name: Bytes) {
    && name != [] && Ascii(name) && name[0] != 47
    && !IsSpace(name[0] as char) && !IsSpace(name[|name| - 1] as char)
  }

  /** A name as it stands in the archive: any number of slashes, then the plain name. */
  function Slashed(slashes: nat, plain: Bytes): Bytes {
    seq(slashes, _ => 47) + plain
  }

  lemma {:induction false} SlashesGo(slashes: nat, plain: Bytes)
    requires PlainName(plain)
    ensures StripSlashes(Chars(Slashed(slashes, plain))) == Chars(plain)
  {
    var name := Slashed(slashes, plain);
    if slashes == 0 {
      assert name == plain && Chars(plain)[0] != '/';
    } else {
      assert name[0] == 47 && name[1..] == Slashed(slashes - 1, plain);
      assert Chars(name)[1..] == Chars(name[1..]);
      SlashesGo(slashes - 1, plain);
    }
  }

  /** A plain name, after any number of slashes, is its own key. */
  lemma SlashedKey(e: Entry, slashes: nat, plain: Bytes, utf8: Bytes -> string)
    requires PlainName(plain) && e.name == Slashed(slashes, plain) && DecodesAscii(utf8)
    ensures KeyOf(e, utf8) == Chars(plain)
  {
    assert e.name[|e.name| - 1] == plain[|plain| - 1];
    TrimSolid(Chars(e.name));
    SlashesGo(slashes, plain);
  }

  lemma CharsInjective(a: Bytes, b: Bytes)
    requires Chars(a) == Chars(b)
    ensures a == b
  {
    assert |a| == |Chars(a)| == |Chars(b)|;
    forall i | 0 <= i < |a| ensures a[i] == b[i] {
      assert Chars(a)[i] == Chars(b)[i];
    }
  }

  /** The entries have plain names, each after some slashes. */
  ghost predicate PlainlyNamed(entries: seq<Entry>, slashes: seq<nat>, names: seq<Bytes>) {
    && |slashes| == |names| == |entries|
    && forall i | 0 <= i < |entries| :: PlainName(names[i]) && entries[i].name == Slashed(slashes[i], names[i])
  }

  /** An archive of plainly named files, leading slashes aside, reads back as exactly those files; of files with one
      name, the last. */
  lemma ArchiveRoundTrip(entries: seq<Entry>, slashes: seq<nat>, names: seq<Bytes>, end: Bytes, utf8: Bytes -> string,
                         files: map<string, Bytes>)
    requires GoodEntries(entries) && EndsArchive(end) && DecodesAscii(utf8) && PlainlyNamed(entries, slashes, names)
    requires Extracts(Encode(entries, end), Ustar(utf8), files)
    ensures forall k :: k in files <==> exists i | 0 <= i < |names| :: Chars(names[i]) == k
    ensures forall i | 0 <= i < |names| && (forall j | i < j < |names| :: names[j] != names[i]) ::
      Chars(names[i]) in files && files[Chars(names[i])] == entries[i].content
  {
    RoundTrip(entries, end, utf8);
    ExtractsOnce(Encode(entries, end), Ustar(utf8), files, Filed(entries, utf8, map[]));
    LastWins(entries, utf8);
    forall i | 0 <= i < |entries| ensures KeyOf(entries[i], utf8) == Chars(names[i]) {
      SlashedKey(entries[i], slashes[i], names[i], utf8);
    }
    forall i | 0 <= i < |names| && forall j | i < j < |names| :: names[j] != names[i]
      ensures IsLast(entries, i, utf8)
    {
      forall j | i < j < |entries| ensures KeyOf(entries[j], utf8) != KeyOf(entries[i], utf8) {
        if KeyOf(entries[j], utf8) == KeyOf(entries[i], utf8) { CharsInjective(names[j], names[i]); }
      }
    }
  }

  // ---- an archive that is read for ever ----

  /** A header that is all zeros but for a one-letter name and the size -1000 in octal. */
  function LoopingArchive(): Bytes {
    [97] + Zeros(123) + [45, 49, 48, 48, 48] + Zeros(383)
  }

  lemma LoopingSize(utf8: Bytes -> string)
    requires DecodesAscii(utf8)
    ensures ReadSize([45, 49, 48, 48, 48] + Zeros(7), utf8) == Some(-512)
  {
    var digits: Bytes := [45, 49, 48, 48, 48];
    UpToNulPrefix(digits, Zeros(7));
    assert Chars(digits) == "-1000";
    TrimSolid("-1000");
    var s := "1000";
    assert "-1000"[1..] == s;
    OctalRunAll(s);
    ThousandInOctal();
    assert s[..4] == s;
  }

  lemma ThousandInOctal()
    ensures OctalValue("1000") == 512
  {
    assert "1000"[..3] == "100" && "100"[..2] == "10" && "10"[..1] == "1" && "1"[..0] == "";
    assert OctalValue("1") == 1 && OctalValue("10") == 8 && OctalValue("100") == 64;
  }

  /** The archive is one block long, and the loop never gets past it. */
  lemma ReadForEver(utf8: Bytes -> string)
    requires DecodesAscii(utf8)
    ensures |LoopingArchive()| == BLOCK && !Halts(Walk(LoopingArchive(), Ustar(utf8)), 0)
  {
    var a := LoopingArchive();
    var size: Bytes := [45, 49, 48, 48, 48];
    assert Subarray(a, 0, BLOCK) == a && a[0] == 97;
    assert Subarray(a, 124, 136) == size + Zeros(7);
    LoopingSize(utf8);
    StandingStill(a, Ustar(utf8), 0);
  }
}
