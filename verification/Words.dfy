/**
 Names made of words: the slug of a title and the key of a host. Both are written as a chain of
 regular-expression passes; here each chain is related to one pass over the text.
 */
module Words {
  // ----- regular-expression passes

  /** The text without the leading run of characters of a class. */
  function DropRun(s: string, inClass: char -> bool): (r: string)
    ensures |r| <= |s|
    ensures r != "" ==> !inClass(r[0])
  {
    if s != "" && inClass(s[0]) then DropRun(s[1..], inClass) else s
  }

  /** `replace(/[class]+/g, insert)`. */
  function ReplaceRuns(s: string, inClass: char -> bool, insert: string): string
    decreases |s|
  {
    if s == "" then ""
    else if inClass(s[0]) then insert + ReplaceRuns(DropRun(s[1..], inClass), inClass, insert)
    else [s[0]] + ReplaceRuns(s[1..], inClass, insert)
  }

  /** `replace(/c/g, insert)`. */
  function ReplaceEach(s: string, c: char, insert: string): string {
    if s == "" then "" else (if s[0] == c then insert else [s[0]]) + ReplaceEach(s[1..], c, insert)
  }

  /** `replace(/^c+/, '')`. */
  function DropLeading(s: string, c: char): string {
    if s != "" && s[0] == c then DropLeading(s[1..], c) else s
  }

  /** `replace(/c+$/, '')`. */
  function DropTrailing(s: string, c: char): string {
    if s != "" && s[|s| - 1] == c then DropTrailing(s[..|s| - 1], c) else s
  }

  // ----- one pass

  /** What the pass does with a character: write some text, end a word, or pass it over. */
  datatype Role = Write(text: string) | EndWord | Skip

  /** One pass: a separator is written only between two written texts, and only once. */
  function Scan(s: string, role: char -> Role, separator: char, pending: bool, started: bool): string {
    if s == "" then ""
    else
      match role(s[0])
      case Write(text) =>
        (if pending && started then [separator] else "") + text + Scan(s[1..], role, separator, false, true)
      case EndWord => Scan(s[1..], role, separator, true, started)
      case Skip => Scan(s[1..], role, separator, pending, started)
  }

  /** Words of such characters joined by single separators, or nothing. */
  ghost predicate WordForm(s: string, word: char -> bool, separator: char) {
    && (forall i :: 0 <= i < |s| ==> word(s[i]) || s[i] == separator)
    && (s != "" ==> s[0] != separator && s[|s| - 1] != separator)
    && (forall i :: 0 <= i < |s| - 1 ==> !(s[i] == separator && s[i + 1] == separator))
  }

  /** The role of a class of separating characters: they end words, every other character is written. */
  function Splitting(inClass: char -> bool): (role: char -> Role)
    ensures forall c :: role(c) == if inClass(c) then EndWord else Write([c])
  {
    (c: char) => if inClass(c) then EndWord else Write([c])
  }

  /** The pass over a text with one more character in front. */
  lemma ScanCons(c: char, s: string, role: char -> Role, separator: char, pending: bool, started: bool)
    ensures Scan([c] + s, role, separator, pending, started) ==
              match role(c)
              case Write(text) =>
                (if pending && started then [separator] else "") + text + Scan(s, role, separator, false, true)
              case EndWord => Scan(s, role, separator, true, started)
              case Skip => Scan(s, role, separator, pending, started)
  {
    assert ([c] + s)[1..] == s;
  }

  /** Two texts that the pass treats alike may stand for each other anywhere. */
  lemma {:induction false} ScanSwap(
      a: string, x: string, y: string, role: char -> Role, separator: char, pending: bool, started: bool)
    requires forall p, s :: Scan(x, role, separator, p, s) == Scan(y, role, separator, p, s)
    ensures Scan(a + x, role, separator, pending, started) == Scan(a + y, role, separator, pending, started)
  {
    if a == "" {
      assert a + x == x && a + y == y;
    } else {
      var c, rest := a[0], a[1..];
      assert a + x == [c] + (rest + x) && a + y == [c] + (rest + y);
      ScanCons(c, rest + x, role, separator, pending, started);
      ScanCons(c, rest + y, role, separator, pending, started);
      ScanSwap(rest, x, y, role, separator, false, true);
      ScanSwap(rest, x, y, role, separator, true, started);
      ScanSwap(rest, x, y, role, separator, pending, started);
    }
  }

  /** Before the first written text it does not matter whether a word has ended. */
  lemma {:induction false} UnstartedScan(s: string, role: char -> Role, separator: char)
    ensures Scan(s, role, separator, true, false) == Scan(s, role, separator, false, false)
  {
    if s != "" {
      UnstartedScan(s[1..], role, separator);
    }
  }

  /** A character that ends words shows neither in front of another one, nor at either end of the text. */
  lemma EndWordDrops(a: string, c: char, b: string, role: char -> Role, separator: char)
    requires role(c) == EndWord
    requires a == "" || b == "" || role(b[0]) == EndWord
    ensures Scan(a + ([c] + b), role, separator, false, false) == Scan(a + b, role, separator, false, false)
  {
    if b == "" || role(b[0]) == EndWord {
      forall p, s ensures Scan([c] + b, role, separator, p, s) == Scan(b, role, separator, p, s) {
        ScanCons(c, b, role, separator, p, s);
      }
      ScanSwap(a, [c] + b, b, role, separator, false, false);
    } else {
      assert a + ([c] + b) == [c] + b && a + b == b;
      ScanCons(c, b, role, separator, false, false);
      UnstartedScan(b, role, separator);
    }
  }

  /** Two characters of the same role are as good as each other. */
  lemma SameRoleSwaps(a: string, c: char, e: char, b: string, role: char -> Role, separator: char)
    requires role(c) == role(e)
    ensures Scan(a + ([c] + b), role, separator, false, false) == Scan(a + ([e] + b), role, separator, false, false)
  {
    forall p, s ensures Scan([c] + b, role, separator, p, s) == Scan([e] + b, role, separator, p, s) {
      ScanCons(c, b, role, separator, p, s);
      ScanCons(e, b, role, separator, p, s);
    }
    ScanSwap(a, [c] + b, [e] + b, role, separator, false, false);
  }

  lemma SkipDrops(a: string, c: char, b: string, role: char -> Role, separator: char)
    requires role(c) == Skip
    ensures Scan(a + ([c] + b), role, separator, false, false) == Scan(a + b, role, separator, false, false)
  {
    forall p, s ensures Scan([c] + b, role, separator, p, s) == Scan(b, role, separator, p, s) {
      ScanCons(c, b, role, separator, p, s);
    }
    ScanSwap(a, [c] + b, b, role, separator, false, false);
  }

  lemma {:induction false} DropRunScans(s: string, inClass: char -> bool, separator: char, started: bool)
    ensures Scan(DropRun(s, inClass), Splitting(inClass), separator, true, started)
            == Scan(s, Splitting(inClass), separator, true, started)
  {
    if s != "" && inClass(s[0]) {
      DropRunScans(s[1..], inClass, separator, started);
    }
  }

  lemma DropTrailingCons(c: char, s: string, separator: char)
    requires c != separator
    ensures DropTrailing([c] + s, separator) == [c] + DropTrailing(s, separator)
    decreases |s|
  {
    if s != "" && s[|s| - 1] == separator {
      assert ([c] + s)[..|[c] + s| - 1] == [c] + s[..|s| - 1];
      DropTrailingCons(c, s[..|s| - 1], separator);
    }
  }

  /** Inside the text, a written character is just put in front of the rest. */
  lemma WriteScans(c: char, s: string, inClass: char -> bool, separator: char)
    requires !inClass(c)
    ensures Scan([c] + s, Splitting(inClass), separator, false, true)
            == [c] + Scan(s, Splitting(inClass), separator, false, true)
  {
    ScanCons(c, s, Splitting(inClass), separator, false, true);
    assert "" + [c] == [c];
  }

  /** A run in front of a word leaves one separator. */
  lemma RunScans(c: char, s: string, inClass: char -> bool, separator: char)
    requires !inClass(c)
    ensures Scan([c] + s, Splitting(inClass), separator, true, true)
            == [separator] + ([c] + Scan(s, Splitting(inClass), separator, false, true))
  {
    ScanCons(c, s, Splitting(inClass), separator, true, true);
  }

  /** Once a word is written: collapsing runs and dropping the trailing one is the pass. */
  lemma {:induction false} CollapseAfterWord(s: string, inClass: char -> bool, separator: char)
    requires inClass(separator)
    ensures DropTrailing(ReplaceRuns(s, inClass, [separator]), separator)
            == Scan(s, Splitting(inClass), separator, false, true)
    decreases |s|
  {
    if s == "" {
    } else if !inClass(s[0]) {
      assert s == [s[0]] + s[1..];
      CollapseAfterWord(s[1..], inClass, separator);
      WriteScans(s[0], s[1..], inClass, separator);
      DropTrailingCons(s[0], ReplaceRuns(s[1..], inClass, [separator]), separator);
    } else {
      CollapseRun(s, DropRun(s[1..], inClass), inClass, separator);
    }
  }

  lemma {:induction false} CollapseRun(s: string, rest: string, inClass: char -> bool, separator: char)
    requires inClass(separator) && s != "" && inClass(s[0]) && rest == DropRun(s[1..], inClass)
    ensures DropTrailing(ReplaceRuns(s, inClass, [separator]), separator)
            == Scan(s, Splitting(inClass), separator, false, true)
    decreases |rest|
  {
    DropRunScans(s[1..], inClass, separator, true);
    if rest == "" {
      assert [separator] + "" == [separator];
      assert DropTrailing([separator], separator) == DropTrailing("", separator);
    } else {
      var c, tail := rest[0], rest[1..];
      assert rest == [c] + tail;
      CollapseAfterWord(tail, inClass, separator);
      RunScans(c, tail, inClass, separator);
      DropTrailingCons(c, ReplaceRuns(tail, inClass, [separator]), separator);
      SeparatorStays(c, ReplaceRuns(tail, inClass, [separator]), separator);
    }
  }

  lemma {:induction false} SeparatorStays(c: char, s: string, separator: char)
    requires c != separator
    ensures DropTrailing([separator] + ([c] + s), separator) == [separator] + DropTrailing([c] + s, separator)
    decreases |s|
  {
    var all := [separator] + ([c] + s);
    if s != "" && s[|s| - 1] == separator {
      assert all[..|all| - 1] == [separator] + ([c] + s[..|s| - 1]);
      assert ([c] + s)[..|[c] + s| - 1] == [c] + s[..|s| - 1];
      SeparatorStays(c, s[..|s| - 1], separator);
    }
  }

  lemma CollapseFromWord(s: string, inClass: char -> bool, separator: char)
    requires inClass(separator) && (s != "" ==> !inClass(s[0]))
    ensures DropLeading(ReplaceRuns(s, inClass, [separator]), separator) == ReplaceRuns(s, inClass, [separator])
    ensures DropTrailing(ReplaceRuns(s, inClass, [separator]), separator)
            == Scan(s, Splitting(inClass), separator, false, false)
  {
    if s != "" {
      CollapseAfterWord(s[1..], inClass, separator);
      DropTrailingCons(s[0], ReplaceRuns(s[1..], inClass, [separator]), separator);
    }
  }

  /** Collapsing the runs of a class and trimming both ends is one pass. */
  lemma CollapseIsOnePass(s: string, inClass: char -> bool, separator: char)
    requires inClass(separator)
    ensures DropTrailing(DropLeading(ReplaceRuns(s, inClass, [separator]), separator), separator)
            == Scan(s, Splitting(inClass), separator, false, false)
  {
    if s == "" || !inClass(s[0]) {
      CollapseFromWord(s, inClass, separator);
    } else {
      var rest := DropRun(s[1..], inClass);
      var r := ReplaceRuns(rest, inClass, [separator]);
      assert ([separator] + r)[1..] == r;
      CollapseFromWord(rest, inClass, separator);
      DropRunScans(s[1..], inClass, separator, false);
      PendingBeforeStart(rest, Splitting(inClass), separator);
    }
  }

  /** Before the first word a pending separator makes no difference. */
  lemma {:induction false} PendingBeforeStart(s: string, role: char -> Role, separator: char)
    ensures Scan(s, role, separator, true, false) == Scan(s, role, separator, false, false)
  {
    if s != "" && role(s[0]).Skip? {
      PendingBeforeStart(s[1..], role, separator);
    }
  }

  // ----- the form of the result

  /** The role function writes nothing but non-empty words. */
  ghost predicate WritesWords(role: char -> Role, word: char -> bool, separator: char) {
    && !word(separator)
    && forall c :: role(c).Write? ==>
         role(c).text != "" && forall i :: 0 <= i < |role(c).text| ==> word(role(c).text[i])
  }

  lemma FormAppend(before: string, text: string, pending: bool, word: char -> bool, separator: char)
    requires WordForm(before, word, separator) && !word(separator)
    requires text != "" && forall i :: 0 <= i < |text| ==> word(text[i])
    requires pending ==> before != ""
    ensures WordForm(before + (if pending then [separator] else "") + text, word, separator)
  {
    var all := before + (if pending then [separator] else "") + text;
    forall i | 0 <= i < |all| ensures word(all[i]) || all[i] == separator {}
    assert all[|all| - 1] == text[|text| - 1];
    assert all[0] == if before != "" then before[0] else text[0];
  }

  lemma {:induction false} ScanForm(
      s: string, role: char -> Role, separator: char, pending: bool, before: string, word: char -> bool)
    requires WritesWords(role, word, separator) && WordForm(before, word, separator)
    ensures WordForm(before + Scan(s, role, separator, pending, before != ""), word, separator)
    decreases |s|
  {
    if s == "" {
      assert before + "" == before;
    } else if role(s[0]).Write? {
      var text := role(s[0]).text;
      var between := if pending && before != "" then [separator] else "";
      var written := before + between + text;
      var rest := Scan(s[1..], role, separator, false, true);
      FormAppend(before, text, pending && before != "", word, separator);
      ScanForm(s[1..], role, separator, false, written, word);
      assert before + (between + text + rest) == written + rest;
    } else {
      ScanForm(s[1..], role, separator, pending || role(s[0]).EndWord?, before, word);
    }
  }

  /** A text already in that form passes unchanged, when word characters are written and the separator ends words. */
  lemma {:induction false} ScanFixes(
      s: string, role: char -> Role, separator: char, word: char -> bool, pending: bool, started: bool)
    requires !word(separator) && role(separator) == EndWord && forall c :: word(c) ==> role(c) == Write([c])
    requires forall i :: 0 <= i < |s| ==> word(s[i]) || s[i] == separator
    requires s != "" ==> s[|s| - 1] != separator && ((pending || !started) ==> s[0] != separator)
    requires forall i :: 0 <= i < |s| - 1 ==> !(s[i] == separator && s[i + 1] == separator)
    ensures Scan(s, role, separator, pending, started)
            == (if pending && started && s != "" then [separator] else "") + s
    decreases |s|
  {
    if s != "" {
      var rest := s[1..];
      assert s == [s[0]] + rest;
      assert forall i :: 0 <= i < |rest| ==> rest[i] == s[i + 1];
      if word(s[0]) {
        ScanFixes(rest, role, separator, word, false, true);
      } else {
        ScanFixes(rest, role, separator, word, true, started);
      }
    }
  }

  lemma FormIsFixed(s: string, role: char -> Role, separator: char, word: char -> bool)
    requires !word(separator) && role(separator) == EndWord && forall c :: word(c) ==> role(c) == Write([c])
    requires WordForm(s, word, separator)
    ensures Scan(s, role, separator, false, false) == s
  {
    ScanFixes(s, role, separator, word, false, false);
  }
}
