/** White space and trimming as the program's run-time library defines them. */
module Text {
  import opened Sequences

  /** The characters that `trim` strips and that `\s` matches. */
  predicate IsSpace(c: char) {
    || '\U{0009}' <= c <= '\U{000D}' || c == ' ' || c == '\U{00A0}' || c == '\U{1680}'
    || '\U{2000}' <= c <= '\U{200A}' || c == '\U{2028}' || c == '\U{2029}' || c == '\U{202F}'
    || c == '\U{205F}' || c == '\U{3000}' || c == '\U{FEFF}'
  }

  /** The characters one by one: white space and line ends of ECMA-262, sections 12.2 and 12.3. */
  lemma SpacesAre(c: char)
    ensures IsSpace(c) <==>
              c in {'\t', '\n', '\U{000B}', '\U{000C}', '\r', ' ', '\U{00A0}', '\U{1680}', '\U{2000}', '\U{2001}',
                    '\U{2002}', '\U{2003}', '\U{2004}', '\U{2005}', '\U{2006}', '\U{2007}', '\U{2008}', '\U{2009}',
                    '\U{200A}', '\U{2028}', '\U{2029}', '\U{202F}', '\U{205F}', '\U{3000}', '\U{FEFF}'}
  {
  }

  ghost predicate AllSpace(s: string) {
    forall c :: c in s ==> IsSpace(c)
  }

  function TrimStart(s: string): string {
    if s != "" && IsSpace(s[0]) then TrimStart(s[1..]) else s
  }

  function TrimEnd(s: string): string {
    if s != "" && IsSpace(s[|s| - 1]) then TrimEnd(s[..|s| - 1]) else s
  }

  function Trim(s: string): string {
    TrimStart(TrimEnd(s))
  }

  /** `split` at a one-character separator. */
  function SplitAt(s: string, separator: char): (parts: seq<string>)
    ensures parts != []
  {
    if s == "" then [""]
    else if s[0] == separator then [""] + SplitAt(s[1..], separator)
    else
      var parts := SplitAt(s[1..], separator);
      [[s[0]] + parts[0]] + parts[1..]
  }

  /** `replace(/c/g, '')`. */
  function Delete(s: string, c: char): string {
    if s == "" then "" else (if s[0] == c then "" else [s[0]]) + Delete(s[1..], c)
  }

  /** White space at the end never shows after trimming. */
  lemma {:induction false} TrimEndSpace(s: string, spaces: string)
    requires AllSpace(spaces)
    ensures TrimEnd(s + spaces) == TrimEnd(s)
    decreases |spaces|
  {
    if spaces == "" {
      assert s + spaces == s;
    } else {
      var all, last := s + spaces, spaces[|spaces| - 1];
      assert last in spaces && all[|all| - 1] == last;
      assert all[..|all| - 1] == s + spaces[..|spaces| - 1];
      TrimEndSpace(s, spaces[..|spaces| - 1]);
    }
  }

  lemma {:induction false} TrimEndKeeps(s: string, i: nat)
    requires i < |s| && !IsSpace(s[i])
    ensures i < |TrimEnd(s)| && TrimEnd(s)[i] == s[i]
    decreases |s|
  {
    if IsSpace(s[|s| - 1]) {
      TrimEndKeeps(s[..|s| - 1], i);
    }
  }

  lemma {:induction false} TrimStartKeeps(s: string, i: nat)
    requires i < |s| && !IsSpace(s[i])
    ensures TrimStart(s) != ""
  {
    if IsSpace(s[0]) {
      TrimStartKeeps(s[1..], i - 1);
    }
  }

  /** Trimming leaves nothing exactly when there is nothing but white space. */
  lemma TrimEmpty(s: string)
    ensures Trim(s) == "" <==> AllSpace(s)
  {
    if !AllSpace(s) {
      var i :| 0 <= i < |s| && !IsSpace(s[i]);
      TrimEndKeeps(s, i);
      TrimStartKeeps(TrimEnd(s), i);
    } else {
      TrimEndSpace("", s);
      assert "" + s == s;
    }
  }

  lemma {:induction false} TrimStartSpace(spaces: string, s: string)
    requires AllSpace(spaces) && (s == "" || !IsSpace(s[0]))
    ensures TrimStart(spaces + s) == s
  {
    if spaces == "" {
      assert spaces + s == s;
    } else {
      assert spaces[0] in spaces && (spaces + s)[1..] == spaces[1..] + s;
      TrimStartSpace(spaces[1..], s);
    }
  }

  /** What trimming leaves: the text between the white space at its ends. */
  lemma TrimIs(before: string, middle: string, after: string)
    requires AllSpace(before) && AllSpace(after)
    requires middle == "" || (!IsSpace(middle[0]) && !IsSpace(middle[|middle| - 1]))
    ensures Trim(before + middle + after) == middle
  {
    TrimEndSpace(before + middle, after);
    if middle == "" {
      TrimEndSpace("", before);
      assert "" + before == before == before + middle;
    } else {
      var s := before + middle;
      assert s[|s| - 1] == middle[|middle| - 1];
      TrimStartSpace(before, middle);
    }
  }

  lemma {:induction false} DeleteIsFilter(s: string, c: char)
    ensures Delete(s, c) == Filter(s, (x: char) => x != c)
  {
    if s != "" {
      DeleteIsFilter(s[1..], c);
    }
  }

  lemma {:induction false} SplitAppend(a: string, b: string, separator: char)
    ensures SplitAt(a + [separator] + b, separator) == SplitAt(a, separator) + SplitAt(b, separator)
  {
    var s := a + [separator] + b;
    if a == "" {
      assert s == [separator] + b;
      assert s[1..] == b;
    } else {
      assert s[0] == a[0] && s[1..] == a[1..] + [separator] + b;
      SplitAppend(a[1..], b, separator);
    }
  }

  lemma {:induction false} SplitWhole(s: string, separator: char)
    requires separator !in s
    ensures SplitAt(s, separator) == [s]
  {
    if s != "" {
      SplitWhole(s[1..], separator);
      assert s == [s[0]] + s[1..];
    }
  }

  lemma {:induction false} SplitJoined(parts: seq<string>, separator: char)
    requires parts != [] && forall p :: p in parts ==> separator !in p
    ensures SplitAt(Join(parts, [separator]), separator) == parts
  {
    SplitWhole(parts[0], separator);
    if |parts| > 1 {
      SplitJoined(parts[1..], separator);
      SplitAppend(parts[0], Join(parts[1..], [separator]), separator);
      assert parts == [parts[0]] + parts[1..];
    } else {
      assert parts == [parts[0]];
    }
  }
}
