/** The ledger of ingested file digests: a text file with one digest per
    line, read into a set and appended to, never rewritten. The file is
    `None` while it does not exist, otherwise `Some` of its text. */
module HashLedger {
  import opened Common

  /** Python's `str.isspace` for one character. */
  predicate IsSpace(c: char)
  {
    c == ' ' || '\t' <= c <= '\r' || '\U{1c}' <= c <= '\U{1f}' ||
    c == '\U{85}' || c == '\U{a0}' || c == '\U{1680}' || '\U{2000}' <= c <= '\U{200a}' ||
    c == '\U{2028}' || c == '\U{2029}' || c == '\U{202f}' || c == '\U{205f}' || c == '\U{3000}'
  }

  /** `s` without its leading whitespace. */
  function StripLeft(s: string): (r: string)
    ensures |r| <= |s| && r == s[|s| - |r|..]
    ensures r == [] || !IsSpace(r[0])
    ensures forall i :: 0 <= i < |s| - |r| ==> IsSpace(s[i])
  {
    if s != [] && IsSpace(s[0]) then
      var r := StripLeft(s[1..]);
      assert forall i :: 1 <= i < |s| ==> s[1..][i - 1] == s[i];
      r
    else s
  }

  /** `s` without its trailing whitespace. */
  function StripRight(s: string): (r: string)
    ensures |r| <= |s| && r == s[..|r|]
    ensures r == [] || !IsSpace(r[|r| - 1])
    ensures forall i :: |r| <= i < |s| ==> IsSpace(s[i])
  {
    if s != [] && IsSpace(s[|s| - 1]) then
      var r := StripRight(s[..|s| - 1]);
      assert forall i :: 0 <= i < |s| - 1 ==> s[..|s| - 1][i] == s[i];
      r
    else s
  }

  /** `r` is `s[k..]` cut short before trailing whitespace, with only
      whitespace before `k`. */
  predicate MiddleOf(r: string, s: string, k: nat)
  {
    k + |r| <= |s| && r == s[k..k + |r|] &&
    (forall i :: 0 <= i < k ==> IsSpace(s[i])) &&
    (forall i :: k + |r| <= i < |s| ==> IsSpace(s[i]))
  }

  /** Python's `str.strip()`: the longest middle part of `s` that neither
      begins nor ends with whitespace. */
  function Strip(s: string): (r: string)
    ensures |r| <= |s|
    ensures r == [] || (!IsSpace(r[0]) && !IsSpace(r[|r| - 1]))
    ensures s != [] && !IsSpace(s[0]) && !IsSpace(s[|s| - 1]) ==> r == s
    ensures exists k: nat :: MiddleOf(r, s, k)
  {
    StripMiddle(s);
    StripRight(StripLeft(s))
  }

  /** Stripping the left and then the right keeps a middle part of `s`. */
  lemma StripMiddle(s: string)
    ensures MiddleOf(StripRight(StripLeft(s)), s, |s| - |StripLeft(s)|)
  {
    MiddleOfSuffixPrefix(s, StripLeft(s), StripRight(StripLeft(s)));
  }

  /** A prefix `r` of a suffix `l` of `s`, with only whitespace cut off on
      either side, is a middle part of `s`. */
  lemma MiddleOfSuffixPrefix(s: string, l: string, r: string)
    requires |l| <= |s| && l == s[|s| - |l|..]
    requires |r| <= |l| && r == l[..|r|]
    requires forall i :: 0 <= i < |s| - |l| ==> IsSpace(s[i])
    requires forall i :: |r| <= i < |l| ==> IsSpace(l[i])
    ensures MiddleOf(r, s, |s| - |l|)
  {
    var k := |s| - |l|;
    assert r == s[k..k + |r|];
    forall i | k + |r| <= i < |s|
      ensures IsSpace(s[i])
    {
      assert s[i] == l[i - k];
    }
  }

  /** The lines concatenated back together. */
  function Concat(lines: seq<string>): string
  {
    if lines == [] then "" else lines[0] + Concat(lines[1..])
  }

  /** Python's `readlines()`: `s` cut after every newline, each line keeping
      its newline; a last line without one is kept too. */
  function ReadLines(s: string): (r: seq<string>)
    ensures |r| <= |s|
    ensures r == [] <==> s == []
  {
    LinesFromLength(s, 0);
    LinesFrom(s, 0)
  }

  /** There are no more lines than characters, and none only when no
      characters are left. */
  lemma {:induction false} LinesFromLength(s: string, k: nat)
    requires k <= |s|
    ensures |LinesFrom(s, k)| <= |s| - k
    ensures LinesFrom(s, k) == [] <==> k == |s|
    decreases |s| - k
  {
    if k < |s| {
      match Find(s, "\n", k)
      case None =>
      case Some(i) =>
        LinesFromLength(s, i + 1);
    }
  }

  /** The lines of `s[k..]`, each cut out of `s` itself. */
  function LinesFrom(s: string, k: nat): seq<string>
    requires k <= |s|
    decreases |s| - k
  {
    if k == |s| then []
    else match Find(s, "\n", k)
      case None => [s[k..]]
      case Some(i) => [s[k..i + 1]] + LinesFrom(s, i + 1)
  }

  /** `line` holds no newline before its last character. */
  predicate OneLine(line: string)
  {
    forall m :: 0 <= m < |line| - 1 ==> line[m] != '\n'
  }

  /** `lines` cut `text` after every newline: they concatenate back to it,
      none is empty, every one but the last ends in a newline, and none holds
      a newline before its end. */
  predicate Cuts(lines: seq<string>, text: string)
  {
    Concat(lines) == text &&
    (forall j :: 0 <= j < |lines| ==> lines[j] != [] && OneLine(lines[j])) &&
    (forall j :: 0 <= j < |lines| - 1 ==> lines[j][|lines[j]| - 1] == '\n')
  }

  /** A newline-terminated line put before a cut of `text` cuts `line + text`. */
  lemma CutsCons(line: string, rest: seq<string>, text: string)
    requires line != [] && line[|line| - 1] == '\n' && OneLine(line)
    requires Cuts(rest, text)
    ensures Cuts([line] + rest, line + text)
  {
    var lines := [line] + rest;
    assert lines[1..] == rest;
    forall j | 1 <= j < |lines|
      ensures lines[j] == rest[j - 1]
    {
    }
  }

  /** A newline character is an occurrence of `"\n"`. */
  lemma NewlineOccurs(s: string, j: nat)
    requires j < |s| && s[j] == '\n'
    ensures OccursAt(s, "\n", j)
  {
    assert s[j..j + 1] == "\n";
  }

  /** The lines of `s[k..]` cut it. */
  lemma {:induction false} LinesFromSpec(s: string, k: nat)
    requires k <= |s|
    ensures Cuts(LinesFrom(s, k), s[k..])
    decreases |s| - k
  {
    if k < |s| {
      match Find(s, "\n", k)
      case None =>
        LinesFromLast(s, k);
      case Some(i) =>
        LinesFromSpec(s, i + 1);
        LinesFromFirst(s, k, i);
    }
  }

  /** Without a newline at or after `k`, `s[k..]` is one line, and cut. */
  lemma LinesFromLast(s: string, k: nat)
    requires k < |s|
    requires Find(s, "\n", k).None?
    ensures Cuts(LinesFrom(s, k), s[k..])
  {
    assert LinesFrom(s, k) == [s[k..]];
    assert Concat([s[k..]]) == s[k..] + "";
    assert OneLine(s[k..]) by {
      FindSpec(s, "\n", k);
      forall m | k <= m < |s|
        ensures s[m] != '\n'
      {
        if s[m] == '\n' {
          NewlineOccurs(s, m);
        }
      }
    }
  }

  /** The first line of `s[k..]`, up to its first newline, holds no other. */
  lemma FirstLineOneLine(s: string, k: nat, i: nat)
    requires k <= |s|
    requires Find(s, "\n", k) == Some(i)
    ensures i + 1 <= |s|
    ensures s[k..i + 1][i - k] == '\n' && OneLine(s[k..i + 1])
  {
    FindSpec(s, "\n", k);
    OccursAtChars(s, "\n", i, 0);
    forall m | k <= m < i
      ensures s[m] != '\n'
    {
      if s[m] == '\n' {
        NewlineOccurs(s, m);
      }
    }
  }

  /** A cut of what follows the first line of `s[k..]` makes, with that
      line in front, a cut of `s[k..]`. */
  lemma LinesFromFirst(s: string, k: nat, i: nat)
    requires k <= |s|
    requires Find(s, "\n", k) == Some(i)
    requires Cuts(LinesFrom(s, i + 1), s[i + 1..])
    ensures Cuts(LinesFrom(s, k), s[k..])
  {
    LinesFromStep(s, k, i);
    FirstLineOneLine(s, k, i);
    CutsCons(s[k..i + 1], LinesFrom(s, i + 1), s[i + 1..]);
    assert s[k..i + 1] + s[i + 1..] == s[k..];
  }

  /** The lines concatenate back to the text; none is empty; every line but
      the last ends in a newline; no line holds a newline before its end. */
  lemma ReadLinesSpec(s: string)
    ensures Concat(ReadLines(s)) == s
    ensures forall i :: 0 <= i < |ReadLines(s)| ==> ReadLines(s)[i] != []
    ensures forall i :: 0 <= i < |ReadLines(s)| - 1 ==> ReadLines(s)[i][|ReadLines(s)[i]| - 1] == '\n'
    ensures forall i :: 0 <= i < |ReadLines(s)| ==>
      forall m :: 0 <= m < |ReadLines(s)[i]| - 1 ==> ReadLines(s)[i][m] != '\n'
  {
    LinesFromSpec(s, 0);
    assert s[0..] == s;
  }

  /** The text of the ledger file; empty when it does not exist. */
  function Content(file: Option<string>): string
  {
    match file
    case None => ""
    case Some(text) => text
  }

  /** `get_existing_hashes`: nothing when the file does not exist, otherwise
      each of its lines with the surrounding whitespace stripped. */
  function Hashes(file: Option<string>): (r: set<string>)
    ensures file.None? || file == Some("") ==> r == {}
  {
    if file.None? then {} else StrippedLines(ReadLines(file.value))
  }

  /** The hashes are the stripped lines of the file's text, a missing file
      reading as empty. */
  lemma HashesOfContent(file: Option<string>)
    ensures Hashes(file) == StrippedLines(ReadLines(Content(file)))
  {
  }

  /** The set of the lines, each stripped. */
  function StrippedLines(lines: seq<string>): (r: set<string>)
  {
    if lines == [] then {}
    else StrippedLines(lines[..|lines| - 1]) + {Strip(lines[|lines| - 1])}
  }

  /** The images of `xs` under `f`, as a set. */
  function Images(xs: seq<string>, f: string -> string): set<string>
  {
    if xs == [] then {} else Images(xs[..|xs| - 1], f) + {f(xs[|xs| - 1])}
  }

  /** The image of every element is in the set, and nothing else is. */
  lemma {:induction false} ImagesMembers(xs: seq<string>, f: string -> string)
    ensures forall i :: 0 <= i < |xs| ==> f(xs[i]) in Images(xs, f)
    ensures forall h :: h in Images(xs, f) ==> exists i :: 0 <= i < |xs| && f(xs[i]) == h
  {
    if xs != [] {
      var init := xs[..|xs| - 1];
      ImagesMembers(init, f);
      assert forall i :: 0 <= i < |init| ==> init[i] == xs[i];
    }
  }

  lemma {:induction false} StrippedLinesAreImages(lines: seq<string>)
    ensures StrippedLines(lines) == Images(lines, Strip)
  {
    if lines != [] {
      StrippedLinesAreImages(lines[..|lines| - 1]);
    }
  }

  /** One more line adds its stripped form. */
  lemma StrippedLinesStep(lines: seq<string>, line: string)
    ensures StrippedLines(lines + [line]) == StrippedLines(lines) + {Strip(line)}
  {
    assert (lines + [line])[..|lines|] == lines;
  }

  /** A hash exists exactly when some line of the ledger strips to it. */
  lemma HashesMembers(text: string, h: string)
    ensures h in Hashes(Some(text)) <==>
      exists i :: 0 <= i < |ReadLines(text)| && Strip(ReadLines(text)[i]) == h
  {
    var lines := ReadLines(text);
    HashesOfContent(Some(text));
    StrippedLinesAreImages(lines);
    ImagesMembers(lines, Strip);
  }

  /** The file text ends with a newline, or is empty: as `save_hash` leaves it. */
  predicate Terminated(text: string)
  {
    text == [] || text[|text| - 1] == '\n'
  }

  /** A lower-case hexadecimal digit. */
  predicate IsHexDigit(c: char)
  {
    '0' <= c <= '9' || 'a' <= c <= 'f'
  }

  /** An MD5 hex digest, as `file_hash` returns. */
  predicate IsDigest(h: string)
  {
    |h| == 32 && forall i :: 0 <= i < |h| ==> IsHexDigit(h[i])
  }

  /** The text `save_hash` writes for each of `hs`, in order. */
  function Lines(hs: seq<string>): string
  {
    if hs == [] then "" else Lines(hs[..|hs| - 1]) + hs[|hs| - 1] + "\n"
  }

  /** The file after `save_hash(h)`: created if missing, then `h` and a newline appended. */
  function Saved(file: Option<string>, h: string): (r: Option<string>)
    ensures r.Some? && Content(r) == Content(file) + h + "\n"
  {
    Some(Content(file) + h + "\n")
  }

  /** The file after `save_hash` of each of `hs` in turn. It only grows: the
      old text stays as it was, and the new lines follow it. */
  function AfterSaves(file: Option<string>, hs: seq<string>): Option<string>
  {
    if hs == [] then file else Saved(AfterSaves(file, hs[..|hs| - 1]), hs[|hs| - 1])
  }

  /** Saves only append: no save leaves the file as it was, any save makes it
      exist, and the old text is followed by the digests, one per line. */
  lemma {:induction false} AfterSavesContent(file: Option<string>, hs: seq<string>)
    ensures hs == [] ==> AfterSaves(file, hs) == file
    ensures hs != [] ==> AfterSaves(file, hs).Some?
    ensures Content(AfterSaves(file, hs)) == Content(file) + Lines(hs)
  {
    if hs != [] {
      AfterSavesContent(file, hs[..|hs| - 1]);
    }
  }

  /** Saving one more digest after `hs` saves it after the file `hs` left. */
  lemma AfterSavesAppend(file: Option<string>, hs: seq<string>, h: string)
    ensures AfterSaves(file, hs + [h]) == Saved(AfterSaves(file, hs), h)
  {
    assert (hs + [h])[..|hs|] == hs;
  }

  /** Saving `a` and then `b` is saving `a + b`. */
  lemma {:induction false} AfterSavesConcat(file: Option<string>, a: seq<string>, b: seq<string>)
    ensures AfterSaves(AfterSaves(file, a), b) == AfterSaves(file, a + b)
    decreases |b|
  {
    if b == [] {
      assert a + b == a;
    } else {
      DropLastOfAppend(a, b);
      AfterSavesConcat(file, a, b[..|b| - 1]);
    }
  }

  /** A pattern found in `c` is found at the same place in any extension of `c`. */
  lemma FindInPrefix(c: string, t: string, pat: string, from: nat)
    requires Find(c, pat, from).Some?
    ensures Find(c + t, pat, from) == Find(c, pat, from)
  {
    var i := Find(c, pat, from).value;
    FindSpec(c, pat, from);
    FindSpec(c + t, pat, from);
    assert (c + t)[i..i + |pat|] == c[i..i + |pat|];
    assert OccursAt(c + t, pat, i);
    var r := Find(c + t, pat, from);
    if r.Some? && r.value < i {
      var j := r.value;
      assert (c + t)[j..j + |pat|] == c[j..j + |pat|];
      assert OccursAt(c, pat, j);
    }
  }

  /** Text whose first newline at or after `k` is at `i` reads, from `k`, as
      the line up to it and then the lines after it. */
  lemma LinesFromStep(s: string, k: nat, i: nat)
    requires k <= |s|
    requires Find(s, "\n", k) == Some(i)
    ensures i + 1 <= |s|
    ensures LinesFrom(s, k) == [s[k..i + 1]] + LinesFrom(s, i + 1)
  {
    assert k < |s|;
    match Find(s, "\n", k)
    case Some(j) =>
      assert j == i;
  }

  /** A terminated text has a newline at or after any of its positions. */
  lemma TerminatedHasNewline(c: string, k: nat)
    requires Terminated(c) && k < |c|
    ensures Find(c, "\n", k).Some?
  {
    assert c[|c| - 1..|c|] == "\n";
    assert OccursAt(c, "\n", |c| - 1);
    FindSpec(c, "\n", k);
  }

  /** A newline-free line and its newline, after `c`, read as that one line. */
  lemma LinesFromLastLine(c: string, h: string)
    requires forall j :: 0 <= j < |h| ==> h[j] != '\n'
    ensures LinesFrom(c + h + "\n", |c|) == [h + "\n"]
  {
    var s := c + h + "\n";
    FreeOfMissingChar(h, "\n", 0);
    assert s + [] == s;
    FindAfterFree(c, h, "\n", []);
    LinesFromStep(s, |c|, |c| + |h|);
    assert s[|c|..|c| + |h| + 1] == h + "\n";
  }

  /** Cutting `c + t` inside `c` cuts `c` at the same place. */
  lemma SliceInPrefix(c: string, t: string, m: nat, n: nat)
    requires m <= n <= |c|
    ensures (c + t)[m..n] == c[m..n]
  {
  }

  /** If `t` adds just its own lines to what follows the first line of `c[k..]`,
      it adds just its own lines to `c[k..]`. */
  lemma LinesFromAppendFirst(c: string, t: string, k: nat, i: nat)
    requires k <= |c|
    requires Find(c, "\n", k) == Some(i)
    requires Find(c + t, "\n", k) == Some(i)
    requires LinesFrom(c + t, i + 1) == LinesFrom(c, i + 1) + [t]
    ensures LinesFrom(c + t, k) == LinesFrom(c, k) + [t]
  {
    LinesFromStep(c, k, i);
    LinesFromStep(c + t, k, i);
    SliceInPrefix(c, t, k, i + 1);
  }

  /** Appending one newline-free line to a terminated text adds exactly that
      line to its lines from any position `k`. */
  lemma {:induction false} LinesFromAppend(c: string, h: string, k: nat)
    requires Terminated(c)
    requires forall j :: 0 <= j < |h| ==> h[j] != '\n'
    requires k <= |c|
    ensures LinesFrom(c + h + "\n", k) == LinesFrom(c, k) + [h + "\n"]
    decreases |c| - k
  {
    var t := h + "\n";
    assert c + h + "\n" == c + t;
    if k == |c| {
      LinesFromLastLine(c, h);
    } else {
      TerminatedHasNewline(c, k);
      var i := Find(c, "\n", k).value;
      FindInPrefix(c, t, "\n", k);
      LinesFromAppend(c, h, i + 1);
      LinesFromAppendFirst(c, t, k, i);
    }
  }

  /** Appending one newline-free line to a terminated text adds exactly that
      line to what `readlines` returns. */
  lemma ReadLinesAppend(c: string, h: string)
    requires Terminated(c)
    requires forall k :: 0 <= k < |h| ==> h[k] != '\n'
    ensures ReadLines(c + h + "\n") == ReadLines(c) + [h + "\n"]
  {
    LinesFromAppend(c, h, 0);
  }

  /** A digest followed by a newline strips back to the digest. */
  lemma StripDigestLine(h: string)
    requires IsDigest(h)
    ensures Strip(h + "\n") == h
  {
    assert IsHexDigit(h[0]) && IsHexDigit(h[|h| - 1]);
    var s := h + "\n";
    assert s[0] == h[0];
    assert StripLeft(s) == s;
    assert s[..|s| - 1] == h;
    assert StripRight(h) == h;
    assert StripRight(s) == h;
  }

  /** The lines of the ledger after `save_hash(h)`: the old ones and `h`'s. */
  lemma ReadLinesAfterSave(file: Option<string>, h: string)
    requires Terminated(Content(file))
    requires IsDigest(h)
    ensures ReadLines(Content(Saved(file, h))) == ReadLines(Content(file)) + [h + "\n"]
  {
    forall k | 0 <= k < |h|
      ensures h[k] != '\n'
    {
      assert IsHexDigit(h[k]);
    }
    ReadLinesAppend(Content(file), h);
  }

  /** `save_hash(h)` on a terminated ledger makes `h` one of the existing
      hashes and keeps every hash that was already there. */
  lemma HashesAfterSave(file: Option<string>, h: string)
    requires Terminated(Content(file))
    requires IsDigest(h)
    ensures Hashes(Saved(file, h)) == Hashes(file) + {h}
    ensures Terminated(Content(Saved(file, h)))
  {
    var lines := ReadLines(Content(file));
    HashesOfContent(file);
    HashesOfContent(Saved(file, h));
    ReadLinesAfterSave(file, h);
    StrippedLinesStep(lines, h + "\n");
    StripDigestLine(h);
  }

  /** The strings of `hs`, as a set. */
  function Elements(hs: seq<string>): set<string>
  {
    if hs == [] then {} else Elements(hs[..|hs| - 1]) + {hs[|hs| - 1]}
  }

  /** `Elements(hs)` holds exactly the strings of `hs`. */
  lemma {:induction false} ElementsMembers(hs: seq<string>)
    ensures forall i :: 0 <= i < |hs| ==> hs[i] in Elements(hs)
    ensures forall h :: h in Elements(hs) ==> h in hs
  {
    if hs != [] {
      var init := hs[..|hs| - 1];
      ElementsMembers(init);
      assert forall i :: 0 <= i < |init| ==> init[i] == hs[i];
    }
  }

  /** After saving the digests `hs` one by one, the existing hashes are the
      earlier ones and `hs`. */
  lemma {:induction false} HashesAfterSaves(file: Option<string>, hs: seq<string>)
    requires Terminated(Content(file))
    requires forall i :: 0 <= i < |hs| ==> IsDigest(hs[i])
    ensures Hashes(AfterSaves(file, hs)) == Hashes(file) + Elements(hs)
    ensures Terminated(Content(AfterSaves(file, hs)))
  {
    if hs != [] {
      var init := hs[..|hs| - 1];
      var last := hs[|hs| - 1];
      assert forall i :: 0 <= i < |init| ==> init[i] == hs[i];
      HashesAfterSaves(file, init);
      HashesAfterSave(AfterSaves(file, init), last);
    }
  }

  /** The ledger file on disk. */
  class LedgerFile {
    var file: Option<string>

    constructor (file: Option<string>)
      ensures this.file == file
    {
      this.file := file;
    }

    /** `get_existing_hashes()`. */
    method GetExistingHashes() returns (hashes: set<string>)
      ensures file.None? ==> hashes == {}
      ensures hashes == Hashes(file)
    {
      hashes := Hashes(file);
    }

    /** `save_hash(h)`: opens the file for appending, creating it if needed,
        and writes `h` and a newline. What this does to the existing hashes
        is `HashesAfterSave`. */
    method SaveHash(h: string)
      modifies this
      ensures file == Saved(old(file), h)
    {
      file := Some(Content(file) + h + "\n");
    }
  }
}
