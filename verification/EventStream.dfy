/** Reading a server-sent event stream that arrives in chunks. */
module EventStream {
  import opened Common
  import Whitespace

  /** The lines a text completes, and what is left after its last line break. */
  function Split(s: string): (r: (seq<string>, string)) {
    if s == "" then ([], "")
    else
      var (lines, rest) := Split(s[1..]);
      if s[0] == '\n' then ([""] + lines, rest)
      else if lines == [] then ([], [s[0]] + rest)
      else ([[s[0]] + lines[0]] + lines[1..], rest)
  }

  /** The text that completes `lines` and then goes on with `rest`. */
  function Text(lines: seq<string>, rest: string): string {
    if lines == [] then rest else lines[0] + ['\n'] + Text(lines[1..], rest)
  }

  ghost predicate NoBreak(s: string) {
    forall i | 0 <= i < |s| :: s[i] != '\n'
  }

  ghost predicate Lines(lines: seq<string>, rest: string) {
    NoBreak(rest) && forall i | 0 <= i < |lines| :: NoBreak(lines[i])
  }

  lemma {:induction false} SplitPlain(s: string)
    requires NoBreak(s)
    ensures Split(s) == ([], s)
  {
    if s != "" {
      SplitPlain(s[1..]);
      assert [s[0]] + s[1..] == s;
    } else {
      assert Split(s) == ([], s);
    }
  }

  lemma {:induction false} SplitLine(l: string, t: string)
    requires NoBreak(l)
    ensures Split(l + ['\n'] + t) == ([l] + Split(t).0, Split(t).1)
  {
    var w := l + ['\n'] + t;
    if l == "" {
      assert w[1..] == t;
    } else {
      SplitLine(l[1..], t);
      assert w[1..] == l[1..] + ['\n'] + t && w[0] == l[0];
      var (lines, rest) := Split(w[1..]);
      assert lines[0] == l[1..] && lines[1..] == Split(t).0;
      assert [l[0]] + l[1..] == l;
    }
  }

  /** Splitting inverts `Text`: the break-free lines and rest are the only ones that make up the text. */
  lemma {:induction false} SplitOfText(lines: seq<string>, rest: string)
    requires Lines(lines, rest)
    ensures Split(Text(lines, rest)) == (lines, rest)
  {
    if lines == [] {
      SplitPlain(rest);
    } else {
      SplitOfText(lines[1..], rest);
      SplitLine(lines[0], Text(lines[1..], rest));
      assert [lines[0]] + lines[1..] == lines;
    }
  }

  /** Every text is made up of the lines it splits into. */
  lemma {:induction false} TextOfSplit(s: string)
    ensures Text(Split(s).0, Split(s).1) == s && Lines(Split(s).0, Split(s).1)
  {
    if s != "" {
      TextOfSplit(s[1..]);
      var (lines, rest) := Split(s[1..]);
      assert s == [s[0]] + s[1..];
      if s[0] == '\n' {
        assert ([""] + lines)[1..] == lines;
        assert Text([""] + lines, rest) == "" + ['\n'] + Text(lines, rest) == s;
      } else if lines != [] {
        LongerLine(s[0], lines, rest);
      }
    }
  }

  lemma LongerLine(c: char, lines: seq<string>, rest: string)
    requires lines != []
    ensures Text([[c] + lines[0]] + lines[1..], rest) == [c] + Text(lines, rest)
    ensures c != '\n' && Lines(lines, rest) ==> Lines([[c] + lines[0]] + lines[1..], rest)
  {
    var l := [c] + lines[0];
    var all := [l] + lines[1..];
    assert all[1..] == lines[1..] && all[0] == l;
    assert l + ['\n'] + Text(lines[1..], rest) == [c] + (lines[0] + ['\n'] + Text(lines[1..], rest));
    if c != '\n' && Lines(lines, rest) {
      assert NoBreak(lines[0]);
      assert NoBreak(l);
      forall i | 0 <= i < |all| ensures NoBreak(all[i]) {
        if i > 0 { assert all[i] == lines[i]; }
      }
    }
  }

  lemma {:induction false} TextAppend(a: seq<string>, b: seq<string>, rest: string)
    ensures Text(a + b, rest) == Text(a, Text(b, rest))
  {
    if a == [] {
      assert a + b == b;
    } else {
      assert (a + b)[1..] == a[1..] + b;
      TextAppend(a[1..], b, rest);
    }
  }

  lemma {:induction false} TextExtends(a: seq<string>, rest: string, more: string)
    ensures Text(a, rest) + more == Text(a, rest + more)
  {
    if a != [] {
      TextExtends(a[1..], rest, more);
      assert Text(a, rest) + more == a[0] + ['\n'] + (Text(a[1..], rest) + more);
    }
  }

  /** Splitting piece by piece, carrying the rest over, completes the same lines. */
  lemma SplitAppend(a: string, b: string)
    ensures Split(a + b).0 == Split(a).0 + Split(Split(a).1 + b).0
    ensures Split(a + b).1 == Split(Split(a).1 + b).1
  {
    var (lines, carried) := Split(a);
    var (more, rest) := Split(carried + b);
    TextOfSplit(a);
    TextOfSplit(carried + b);
    TextExtends(lines, carried, b);
    TextAppend(lines, more, rest);
    SplitOfText(lines + more, rest);
  }

  const PREFIX := ['d', 'a', 't', 'a', ':', ' ']
  const DONE := ['[', 'D', 'O', 'N', 'E', ']']

  predicate IsData(line: string) {
    |line| >= 6 && line[..6] == PREFIX
  }

  function Payload(line: string): string
    requires IsData(line)
  {
    Whitespace.Trim(line[6..])
  }

  predicate Ends(line: string) {
    IsData(line) && Payload(line) == DONE
  }

  /** What one line contributes. */
  function Own(line: string): seq<string> {
    if IsData(line) then [Payload(line)] else []
  }

  lemma OneLine(line: string)
    ensures Payloads([line]) == (if Ends(line) then [] else Own(line), Ends(line))
  {
    assert [line][1..] == [];
    assert Payloads([line][1..]) == ([], false);
    assert Own(line) + [] == Own(line);
  }

  /** The payloads of the data lines before the end mark, and whether the end mark was met. */
  function Payloads(lines: seq<string>): (seq<string>, bool) {
    if lines == [] then ([], false)
    else if Ends(lines[0]) then ([], true)
    else
      var (more, done) := Payloads(lines[1..]);
      (Own(lines[0]) + more, done)
  }

  lemma {:induction false} PayloadsAppend(a: seq<string>, b: seq<string>)
    ensures Payloads(a).1 ==> Payloads(a + b) == Payloads(a)
    ensures !Payloads(a).1 ==> Payloads(a + b) == (Payloads(a).0 + Payloads(b).0, Payloads(b).1)
  {
    if a == [] {
      assert a + b == b && Payloads(a).0 + Payloads(b).0 == Payloads(b).0;
    } else {
      assert (a + b)[1..] == a[1..] + b && (a + b)[0] == a[0];
      PayloadsAppend(a[1..], b);
      if !Ends(a[0]) {
        var x, m := Own(a[0]), Payloads(a[1..]).0;
        assert x + (m + Payloads(b).0) == (x + m) + Payloads(b).0;
      }
    }
  }

  /** What a whole text hands on. */
  function Events(text: string): (seq<string>, bool) {
    Payloads(Split(text).0)
  }

  /** Reading stops for good at the end mark. */
  lemma EventsStop(a: string, b: string)
    requires Events(a).1
    ensures Events(a + b) == Events(a)
  {
    SplitAppend(a, b);
    PayloadsAppend(Split(a).0, Split(Split(a).1 + b).0);
  }

  /** One more chunk: the lines it completes are those of the carried rest plus the chunk. */
  lemma EventsNext(a: string, chunk: string)
    requires !Events(a).1
    ensures var (lines, rest) := Split(Split(a).1 + chunk);
      && Split(a + chunk).1 == rest
      && Events(a + chunk) == (Events(a).0 + Payloads(lines).0, Payloads(lines).1)
  {
    SplitAppend(a, chunk);
    PayloadsAppend(Split(a).0, Split(Split(a).1 + chunk).0);
  }

  /** The loop over the lines of one chunk. */
  method HandLines(lines: seq<string>) returns (out: seq<string>, done: bool)
    ensures (out, done) == Payloads(lines)
  {
    out := [];
    for k := 0 to |lines|
      invariant Payloads(lines[..k]) == (out, false)
    {
      assert lines[..k + 1] == lines[..k] + [lines[k]];
      PayloadsAppend(lines[..k], [lines[k]]);
      OneLine(lines[k]);
      assert Payloads(lines[..k + 1]) == (out + (if Ends(lines[k]) then [] else Own(lines[k])), Ends(lines[k]));
      assert out + [] == out;
      if IsData(lines[k]) {
        var data := Payload(lines[k]);
        if data == DONE {
          assert lines == lines[..k + 1] + lines[k + 1..];
          PayloadsAppend(lines[..k + 1], lines[k + 1..]);
          return out, true;
        }
        out := out + [data];
      }
    }
    assert lines[..|lines|] == lines;
    done := false;
  }

  /** The reader hands on the payloads of the concatenated text, however it was cut into chunks. */
  method Stream(chunks: seq<string>) returns (out: seq<string>)
    ensures out == Events(Concat(chunks)).0
  {
    out := [];
    var buffer := "";
    for k := 0 to |chunks|
      invariant Events(Concat(chunks[..k])) == (out, false) && buffer == Split(Concat(chunks[..k])).1
    {
      ghost var text := Concat(chunks[..k]);
      assert chunks[..k + 1][..k] == chunks[..k];
      EventsNext(text, chunks[k]);
      var (lines, rest) := Split(buffer + chunks[k]);
      buffer := rest;
      var more, done := HandLines(lines);
      out := out + more;
      if done {
        ghost var later := ConcatSplit(chunks, k + 1);
        EventsStop(Concat(chunks[..k + 1]), later);
        return;
      }
    }
    assert chunks[..|chunks|] == chunks;
  }

  // ---- what the payloads are, line by line ----

  ghost predicate DataAt(lines: seq<string>, i: nat) {
    i < |lines| && IsData(lines[i]) && forall j | 0 <= j <= i :: !Ends(lines[j])
  }

  /** The payloads are those of the data lines before the first end mark, in order: the next one comes
      from the next such line. */
  lemma {:induction false} PayloadsInOrder(lines: seq<string>, i: nat)
    requires DataAt(lines, i)
    ensures var before := Payloads(lines[..i]).0;
      |before| < |Payloads(lines).0| && Payloads(lines).0[|before|] == Payload(lines[i])
  {
    assert lines == lines[..i] + lines[i..];
    PayloadsAppend(lines[..i], lines[i..]);
    NoEndBefore(lines, i);
    assert lines[i..][0] == lines[i];
  }

  /** Nothing else is handed on: the payload at `k` comes from a data line before the end mark. */
  lemma {:induction false} PayloadsOnlyFromData(lines: seq<string>, k: nat) returns (i: nat)
    requires k < |Payloads(lines).0|
    ensures DataAt(lines, i) && |Payloads(lines[..i]).0| == k
  {
    if IsData(lines[0]) && k == 0 {
      i := 0;
    } else {
      var skipped := if IsData(lines[0]) then 1 else 0;
      var j := PayloadsOnlyFromData(lines[1..], k - skipped);
      i := j + 1;
      assert lines[..i][1..] == lines[1..][..j];
      forall m | 0 <= m <= i ensures !Ends(lines[m]) {
        if m > 0 { assert lines[m] == lines[1..][m - 1]; }
      }
    }
  }

  lemma {:induction false} NoEndBefore(lines: seq<string>, i: nat)
    requires i <= |lines| && forall j | 0 <= j < i :: !Ends(lines[j])
    ensures !Payloads(lines[..i]).1
    decreases i
  {
    if i > 0 {
      var a := lines[..i];
      assert a[1..] == lines[1..][..i - 1];
      NoEndBefore(lines[1..], i - 1);
    }
  }

  // ---- what a server sends is what is handed on ----

  /** A payload that survives on one line: no line break, no white space at its ends, and not the end mark. */
  ghost predicate Sendable(p: string) {
    && NoBreak(p) && p != "[DONE]"
    && (p != "" ==> !Whitespace.IsSpace(p[0]) && !Whitespace.IsSpace(p[|p| - 1]))
  }

  function Sent(payloads: seq<string>): string {
    if payloads == [] then "" else "data: " + payloads[0] + ['\n'] + Sent(payloads[1..])
  }

  lemma DataLine(p: string)
    requires NoBreak(p) && (p != "" ==> !Whitespace.IsSpace(p[0]) && !Whitespace.IsSpace(p[|p| - 1]))
    ensures var line := "data: " + p; NoBreak(line) && IsData(line) && Payload(line) == p
  {
    var line := "data: " + p;
    assert line[..6] == "data: " == PREFIX && line[6..] == p;
    assert Whitespace.TrimLeft(p) == p && Whitespace.TrimRight(p) == p;
  }

  lemma SentLine(p: string, text: string)
    requires Sendable(p)
    ensures Events("data: " + p + ['\n'] + text) == ([p] + Events(text).0, Events(text).1)
  {
    var line := "data: " + p;
    DataLine(p);
    SplitLine(line, text);
    assert ([line] + Split(text).0)[1..] == Split(text).0;
    assert DONE == "[DONE]";
  }

  /** The payloads of a stream, each on its data line, come back as they were sent; nothing after the end mark does. */
  lemma {:induction false} SentIsHandedOn(payloads: seq<string>, after: string)
    requires forall i | 0 <= i < |payloads| :: Sendable(payloads[i])
    ensures Events(Sent(payloads) + ("data: [DONE]" + ['\n'] + after)) == (payloads, true)
    ensures Events(Sent(payloads)) == (payloads, false)
  {
    var mark := "data: [DONE]" + ['\n'] + after;
    if payloads == [] {
      EndMark(after);
      assert Sent(payloads) + mark == mark;
    } else {
      var p, more := payloads[0], payloads[1..];
      SentIsHandedOn(more, after);
      SentLine(p, Sent(more));
      SentLine(p, Sent(more) + mark);
      assert Sent(payloads) + mark == "data: " + p + ['\n'] + (Sent(more) + mark);
      assert [p] + more == payloads;
    }
  }

  lemma EndMark(after: string)
    ensures Events("data: [DONE]" + ['\n'] + after) == ([], true)
  {
    DataLine("[DONE]");
    assert "data: " + "[DONE]" == "data: [DONE]" && DONE == "[DONE]";
    SplitLine("data: [DONE]", after);
  }
}
