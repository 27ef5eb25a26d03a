/** parseHexFile (palettes.js): a Lospec .hex file is split into lines, each
    line trimmed, blank lines and ';' comment lines dropped, and '#' put in
    front of every entry that lacks it. */
module Palettes {
  import opened Js

  /** The position of the first c in s, or |s| when s has none. */
  function Find(s: string, c: char): (i: nat)
    ensures i <= |s| && (i < |s| ==> s[i] == c)
    ensures forall j | 0 <= j < i :: s[j] != c
  {
    if s == [] || s[0] == c then 0
    else
      var k := Find(s[1..], c);
      assert forall j | 0 < j <= k :: s[j] == s[1..][j - 1];
      k + 1
  }

  /** Find runs to the end exactly when c does not occur. */
  lemma FindAbsent(s: string, c: char)
    ensures Find(s, c) == |s| <==> c !in s
  {
    var i := Find(s, c);
    if c in s {
      var j :| 0 <= j < |s| && s[j] == c;
      assert i <= j;
    }
  }

  /** The first c is at i when s[i] is c and nothing before it is. */
  lemma FindUnique(s: string, c: char, i: nat)
    requires i < |s| && s[i] == c
    requires forall j | 0 <= j < i :: s[j] != c
    ensures Find(s, c) == i
  {
  }

  /** String.prototype.split with a one-character separator: the pieces
      between separators, so n separators give n + 1 pieces. */
  function Split(text: string, sep: char): (pieces: seq<string>)
    ensures |pieces| >= 1
    decreases |text|
  {
    var i := Find(text, sep);
    if i == |text| then [text] else [text[..i]] + Split(text[i + 1..], sep)
  }

  /** A text without the separator is one piece. */
  lemma SplitNone(text: string, sep: char)
    requires sep !in text
    ensures Split(text, sep) == [text]
  {
    FindAbsent(text, sep);
  }

  /** No piece of a split contains the separator. */
  lemma {:induction false} SplitPieces(text: string, sep: char)
    ensures forall k | 0 <= k < |Split(text, sep)| :: sep !in Split(text, sep)[k]
    decreases |text|
  {
    var i := Find(text, sep);
    if i == |text| {
      FindAbsent(text, sep);
    } else {
      var rest := Split(text[i + 1..], sep);
      SplitPieces(text[i + 1..], sep);
      var pieces := [text[..i]] + rest;
      assert Split(text, sep) == pieces;
      forall k | 0 <= k < |pieces| ensures sep !in pieces[k] {
        if k > 0 {
          assert pieces[k] == rest[k - 1];
        } else {
          FindAbsent(text[..i], sep);
        }
      }
    }
  }

  /** Array.prototype.join: the pieces with sep between neighbours. */
  function Join(pieces: seq<string>, sep: char): string
    requires |pieces| >= 1
  {
    if |pieces| == 1 then pieces[0] else pieces[0] + [sep] + Join(pieces[1..], sep)
  }

  /** Joining the pieces of a split gives back the text. */
  lemma {:induction false} JoinSplit(text: string, sep: char)
    ensures Join(Split(text, sep), sep) == text
    decreases |text|
  {
    var i := Find(text, sep);
    if i < |text| {
      var rest := Split(text[i + 1..], sep);
      var pieces := [text[..i]] + rest;
      assert Split(text, sep) == pieces;
      assert pieces[1..] == rest;
      assert Join(pieces, sep) == text[..i] + [sep] + Join(rest, sep);
      JoinSplit(text[i + 1..], sep);
      assert text == text[..i] + [sep] + text[i + 1..];
    }
  }

  /** Splitting a join of separator-free pieces gives back the pieces. */
  lemma {:induction false} SplitJoin(pieces: seq<string>, sep: char)
    requires |pieces| >= 1 && forall k | 0 <= k < |pieces| :: sep !in pieces[k]
    ensures Split(Join(pieces, sep), sep) == pieces
    decreases |pieces|
  {
    if |pieces| > 1 {
      var rest := Join(pieces[1..], sep);
      assert Join(pieces, sep) == pieces[0] + [sep] + rest;
      SplitAtFirst(pieces[0], rest, sep);
      SplitJoin(pieces[1..], sep);
      assert pieces == [pieces[0]] + pieces[1..];
    } else {
      SplitNone(pieces[0], sep);
      assert Join(pieces, sep) == pieces[0];
    }
  }

  /** A trimmed line is kept unless it is empty or a ';' comment. */
  predicate Kept(line: string) {
    line != [] && line[0] != ';'
  }

  /** What every entry looks like: it starts with '#' and ends in a
      character that is not whitespace. */
  predicate IsEntry(e: string) {
    e != [] && e[0] == '#' && !IsWhitespace(e[|e| - 1])
  }

  /** The entry for a kept line: unchanged if it starts with '#', otherwise
      with '#' put in front. */
  function Entry(line: string): (e: string)
    requires line != [] && !IsWhitespace(line[|line| - 1])
    ensures e == line || e == ['#'] + line
    ensures IsEntry(e) && e[|e| - 1] == line[|line| - 1]
  {
    if line[0] == '#' then line else ['#'] + line
  }

  /** The entries of a list of lines, in order. */
  function ParseLines(lines: seq<string>): (entries: seq<string>)
    ensures |entries| <= |lines|
    ensures forall k | 0 <= k < |entries| :: IsEntry(entries[k])
  {
    if lines == [] then []
    else
      var line := Trim(lines[0]);
      var head := if Kept(line) then [Entry(line)] else [];
      var tail := ParseLines(lines[1..]);
      assert forall k | 0 <= k < |head| :: IsEntry(head[k]);
      head + tail
  }

  /** The lines of two files one after the other give the entries of the
      first file followed by those of the second. */
  lemma {:induction false} ParseLinesAppend(a: seq<string>, b: seq<string>)
    ensures ParseLines(a + b) == ParseLines(a) + ParseLines(b)
    decreases |a|
  {
    if a != [] {
      assert (a + b)[1..] == a[1..] + b;
      ParseLinesAppend(a[1..], b);
    } else {
      assert a + b == b;
    }
  }

  /** parseHexFile */
  function ParseHexFile(text: string): (entries: seq<string>)
    ensures |entries| <= |Split(text, '\n')|
    ensures forall k | 0 <= k < |entries| ::
      && entries[k] != [] && entries[k][0] == '#' && entries[k][0] != ';'
      && !IsWhitespace(entries[k][0]) && !IsWhitespace(entries[k][|entries[k]| - 1])
  {
    var lines := Split(text, '\n');
    var r := ParseLines(lines);
    assert forall k | 0 <= k < |r| :: IsEntry(r[k]);
    r
  }

  /** A file of one line: no entry when the trimmed line is blank or a
      comment, otherwise the line's entry. */
  lemma ParseOneLine(line: string)
    requires '\n' !in line
    ensures ParseHexFile(line) == if Kept(Trim(line)) then [Entry(Trim(line))] else []
  {
    SplitNone(line, '\n');
    assert ParseLines([line][1..]) == [];
  }

  /** Two files joined by a newline parse to the first file's entries followed
      by the second's: entries keep the order of their lines. */
  lemma ParseHexFileConcat(a: string, b: string)
    ensures ParseHexFile(a + "\n" + b) == ParseHexFile(a) + ParseHexFile(b)
  {
    SplitAppend(a, b, '\n');
    ParseLinesAppend(Split(a, '\n'), Split(b, '\n'));
  }

  /** Splitting a + sep + b splits a and b separately. */
  lemma {:induction false} SplitAppend(a: string, b: string, sep: char)
    ensures Split(a + [sep] + b, sep) == Split(a, sep) + Split(b, sep)
    decreases |a|
  {
    var i := Find(a, sep);
    FindAbsent(a, sep);
    if i == |a| {
      SplitAtFirst(a, b, sep);
    } else {
      var tail := a[i + 1..];
      SplitInFirst(a, b, sep);
      SplitAppend(tail, b, sep);
      ConsAppend(a[..i], Split(tail, sep), Split(b, sep));
    }
  }

  /** Regrouping a piece in front of two runs of pieces. */
  lemma ConsAppend(x: string, ys: seq<string>, zs: seq<string>)
    ensures [x] + (ys + zs) == ([x] + ys) + zs
  {
  }

  /** When a has no separator, the one after it is where a + sep + b splits first. */
  lemma SplitAtFirst(a: string, b: string, sep: char)
    requires sep !in a
    ensures Split(a + [sep] + b, sep) == [a] + Split(b, sep)
  {
    var t := a + [sep] + b;
    assert forall j | 0 <= j < |a| :: t[j] == a[j];
    FindUnique(t, sep, |a|);
    assert t[..|a|] == a && t[|a| + 1..] == b;
  }

  /** When a has a separator, a + sep + b splits first where a does. */
  lemma SplitInFirst(a: string, b: string, sep: char)
    requires sep in a
    ensures var i := Find(a, sep);
      && i < |a|
      && Split(a, sep) == [a[..i]] + Split(a[i + 1..], sep)
      && Split(a + [sep] + b, sep) == [a[..i]] + Split(a[i + 1..] + [sep] + b, sep)
  {
    FindAbsent(a, sep);
    FirstInPrefix(a, b, sep);
  }

  /** The first separator of a, when a has one, is the first of a + sep + b,
      with the same text before it and b appended to the text after it. */
  lemma FirstInPrefix(a: string, b: string, sep: char)
    requires Find(a, sep) < |a|
    ensures var i, t := Find(a, sep), a + [sep] + b;
      && Find(t, sep) == i && t[..i] == a[..i] && t[i + 1..] == a[i + 1..] + [sep] + b
  {
    var t := a + [sep] + b;
    var i := Find(a, sep);
    assert forall j | 0 <= j <= i :: t[j] == a[j];
    FindUnique(t, sep, i);
    assert t[..i] == a[..i];
    assert t[i + 1..] == a[i + 1..] + [sep] + b;
  }
}
