/** The clipboard matcher of the rich-text editor: text cut into plain and link inserts. */
module Linkify {
  import opened Sequences
  import opened Text
  import opened Cutting

  // ----- the URL expression

  /** One character of `[^\s<]`. */
  predicate UrlChar(c: char) {
    !IsSpace(c) && c != '<'
  }

  predicate StartsAt(text: string, i: nat, prefix: string) {
    i + |prefix| <= |text| && text[i..i + |prefix|] == prefix
  }

  /** The length of `https?://` at `i`, or 0. */
  function SchemeLength(text: string, i: nat): nat {
    if StartsAt(text, i, "http://") then 7 else if StartsAt(text, i, "https://") then 8 else 0
  }

  function RunLength(text: string, i: nat): (n: nat)
    ensures n > 0 ==> i + n <= |text|
    decreases |text| - i
  {
    if i < |text| && UrlChar(text[i]) then 1 + RunLength(text, i + 1) else 0
  }

  /** The length of the greedy match of `https?://[^\s<]+` at `i`, or 0. */
  function MatchLength(text: string, i: nat): (n: nat)
    ensures n > 0 ==> i + n <= |text|
  {
    var scheme := SchemeLength(text, i);
    if scheme == 0 || RunLength(text, i + scheme) == 0 then 0 else scheme + RunLength(text, i + scheme)
  }

  /** The prefix, then one character or more, none of them white space or `<`. */
  ghost predicate UrlAfter(prefix: string, s: string) {
    |prefix| < |s| && s[..|prefix|] == prefix && forall k :: |prefix| <= k < |s| ==> !IsSpace(s[k]) && s[k] != '<'
  }

  /** A whole string that the expression describes. */
  ghost predicate IsUrl(s: string) {
    UrlAfter("http://", s) || UrlAfter("https://", s)
  }

  /** Somewhere in the text stands a URL. */
  ghost predicate HoldsUrl(text: string) {
    exists i, j :: 0 <= i <= j <= |text| && IsUrl(text[i..j])
  }

  /** The same by the length of the scheme. */
  lemma UrlByScheme(s: string)
    ensures IsUrl(s) <==> 0 < SchemeLength(s, 0) < |s| && forall k :: SchemeLength(s, 0) <= k < |s| ==> UrlChar(s[k])
  {
    SchemesDiffer(s, 0);
    if |s| >= 7 { assert s[0..7] == s[..7]; }
    if |s| >= 8 { assert s[0..8] == s[..8]; }
  }

  lemma {:induction false} RunIsLongest(text: string, i: nat, n: nat)
    requires i + n <= |text|
    ensures n <= RunLength(text, i) <==> forall k :: i <= k < i + n ==> UrlChar(text[k])
    decreases n
  {
    if n > 0 {
      RunIsLongest(text, i + 1, n - 1);
    }
  }

  /** Schemes depend on the next characters only. */
  lemma SchemeOfPiece(text: string, i: nat, n: nat)
    requires i + n <= |text|
    ensures SchemeLength(text[i..i + n], 0) > 0 ==> SchemeLength(text, i) == SchemeLength(text[i..i + n], 0)
    ensures 0 < SchemeLength(text, i) <= n ==> SchemeLength(text[i..i + n], 0) == SchemeLength(text, i)
  {
    var s := text[i..i + n];
    if n >= 7 { assert s[0..7] == text[i..i + 7]; }
    if n >= 8 { assert s[0..8] == text[i..i + 8]; }
    SchemesDiffer(text, i);
    SchemesDiffer(s, 0);
  }

  lemma SchemesDiffer(text: string, i: nat)
    ensures !(StartsAt(text, i, "http://") && StartsAt(text, i, "https://"))
  {
    if StartsAt(text, i, "http://") {
      assert text[i..i + 7][4] == text[i + 4] == ':';
    }
    if StartsAt(text, i, "https://") {
      assert text[i..i + 8][4] == text[i + 4] == 's';
    }
  }

  /** A match is the longest URL at its place, and there is none exactly when no URL starts there. */
  lemma MatchIsLongestUrl(text: string, i: nat, n: nat)
    requires i + n <= |text|
    ensures IsUrl(text[i..i + n]) ==> 0 < n <= MatchLength(text, i)
    ensures n == MatchLength(text, i) > 0 ==> IsUrl(text[i..i + n])
  {
    var s := text[i..i + n];
    var p := SchemeLength(text, i);
    SchemeOfPiece(text, i, n);
    UrlByScheme(s);
    if IsUrl(s) {
      forall k | i + p <= k < i + n ensures UrlChar(text[k]) { assert text[k] == s[k - i]; }
      RunIsLongest(text, i + p, n - p);
    }
    if n == MatchLength(text, i) > 0 {
      RunIsLongest(text, i + p, n - p);
      forall k | p <= k < n ensures UrlChar(s[k]) { assert s[k] == text[i + k]; }
    }
  }

  // ----- the matcher

  function Urls(text: string): (m: Matches)
    ensures Within(m, |text|)
  {
    (i: nat) => MatchLength(text, i)
  }

  /** The expression matches somewhere exactly when the text holds a URL. */
  lemma MatchesAreUrls(text: string)
    ensures NoMatchIn(Urls(text), 0, |text|) <==> !HoldsUrl(text)
  {
    if i, j :| 0 <= i <= j <= |text| && IsUrl(text[i..j]) {
      MatchIsLongestUrl(text, i, j - i);
      assert i + (j - i) == j;
      assert Urls(text)(i) > 0;
    }
    if i: nat :| i < |text| && Urls(text)(i) != 0 {
      var n := MatchLength(text, i);
      MatchIsLongestUrl(text, i, n);
      assert IsUrl(text[i..i + n]);
    }
  }

  method TextMatcher(text: string, delta: seq<Insert>) returns (result: seq<Insert>)
    ensures result == if NoMatchIn(Urls(text), 0, |text|) then delta else Segments(text, Urls(text), 0)
    ensures !HoldsUrl(text) ==> result == delta
    ensures HoldsUrl(text) ==> IsCut(text, Urls(text), 0, result, false) && Spelled(result) == text
  {
    MatchesAreUrls(text);
    var m := Urls(text);
    var found := FirstMatch(m, 0, |text|);
    if found.None? {
      return delta;
    }
    result := CutText(text, m);
    InsertsSpellText(text, result);
  }

  /** The `exec` loop. */
  method CutText(text: string, m: Matches) returns (newDelta: seq<Insert>)
    requires Within(m, |text|)
    ensures newDelta == Segments(text, m, 0)
  {
    newDelta := [];
    ghost var whole := Segments(text, m, 0);
    var lastIndex := 0;
    var found := FirstMatch(m, lastIndex, |text|);
    while found.Some?
      invariant lastIndex <= |text| && found == FirstMatch(m, lastIndex, |text|)
      invariant newDelta + Segments(text, m, lastIndex) == whole
      decreases |text| - lastIndex
    {
      var index := found.value;
      var matched := text[index..index + m(index)];
      assert |matched| == m(index);
      ghost var next := Segments(text, m, index + m(index));
      Round(text, m, lastIndex, newDelta);
      if index > lastIndex {
        newDelta := newDelta + [Plain(text[lastIndex..index])];
      }
      newDelta := newDelta + [Link(matched)];
      assert newDelta + next == whole;
      lastIndex := index + |matched|;
      found := FirstMatch(m, lastIndex, |text|);
    }
    LastRound(text, m, lastIndex);
    if lastIndex < |text| {
      newDelta := newDelta + [Plain(text[lastIndex..])];
    }
  }

  // ----- what the inserts are

  lemma PieceOfPiece(text: string, from: nat, to: nat, a: nat, b: nat)
    requires from <= to <= |text| && a <= b <= to - from
    ensures text[from..to][a..b] == text[from + a..from + b]
  {
    var inner, direct := text[from..to][a..b], text[from + a..from + b];
    assert |inner| == |direct|;
    assert forall k :: 0 <= k < |inner| ==> inner[k] == text[from..to][a + k] == text[from + a + k] == direct[k];
  }

  lemma MatchedIsUrl(text: string, at: nat, n: nat)
    requires at + n <= |text| && n > 0 && Urls(text)(at) == n
    ensures IsUrl(text[at..at + n])
  {
    MatchIsLongestUrl(text, at, n);
  }

  /** A match inside a piece of text is, perhaps longer, a match of the text. */
  lemma MatchInPiece(text: string, from: nat, to: nat, k: nat)
    requires from <= to <= |text| && MatchLength(text[from..to], k) > 0
    ensures MatchLength(text, from + k) > 0
  {
    var piece := text[from..to];
    var n := MatchLength(piece, k);
    assert k + n <= |piece|;
    MatchedIsUrl(piece, k, n);
    PieceOfPiece(text, from, to, k, k + n);
    MatchIsLongestUrl(text, from + k, n);
  }

  lemma NoMatchInPiece(text: string, from: nat, to: nat)
    requires from <= to <= |text| && NoMatchIn(Urls(text), from, to)
    ensures NoMatchIn(Urls(text[from..to]), 0, to - from)
  {
    forall k: nat | k < to - from ensures Urls(text[from..to])(k) == 0 {
      assert Urls(text)(from + k) == 0;
      if MatchLength(text[from..to], k) > 0 {
        MatchInPiece(text, from, to, k);
      }
    }
  }

  /**
   For text with a URL the matcher's inserts are the one correct cut: they spell the text out, and every
   cut with these properties is this one.
   */
  lemma InsertsSpellText(text: string, inserts: seq<Insert>)
    ensures IsCut(text, Urls(text), 0, inserts, false) <==> inserts == Segments(text, Urls(text), 0)
    ensures inserts == Segments(text, Urls(text), 0) ==> Spelled(inserts) == text
  {
    SegmentsAreTheCut(text, Urls(text), inserts);
    if inserts == Segments(text, Urls(text), 0) {
      CutSpells(text, Urls(text), 0, inserts, false);
      assert text[0..] == text;
    }
  }

  lemma {:induction false} RunEnds(text: string, i: nat)
    ensures var n := i + RunLength(text, i); n < |text| ==> !UrlChar(text[n])
    decreases |text| - i
  {
    if i < |text| && UrlChar(text[i]) {
      RunEnds(text, i + 1);
    }
  }

  lemma SchemeIsUrlChar(text: string, i: nat)
    requires SchemeLength(text, i) > 0
    ensures i < |text| && UrlChar(text[i])
  {
    if StartsAt(text, i, "http://") {
      assert text[i..i + 7][0] == text[i] == 'h';
    } else {
      assert text[i..i + 8][0] == text[i] == 'h';
    }
  }

  /** The expression is greedy, so no URL starts right after another one. */
  lemma NoUrlAfterUrl(text: string, i: nat)
    requires MatchLength(text, i) > 0
    ensures MatchLength(text, i + MatchLength(text, i)) == 0
  {
    var end := i + MatchLength(text, i);
    RunEnds(text, i + SchemeLength(text, i));
    if SchemeLength(text, end) > 0 {
      SchemeIsUrlChar(text, end);
    }
  }

  /** No two links and no two plain inserts follow each other, whatever the text. */
  lemma InsertsAlternate(text: string)
    ensures Alternating(Segments(text, Urls(text), 0))
  {
    var m := Urls(text);
    forall i: nat | m(i) > 0 ensures m(i + m(i)) == 0 {
      NoUrlAfterUrl(text, i);
    }
    SegmentsAreACut(text, m, 0, false);
    CutsAlternate(text, m, 0, Segments(text, m, 0), false);
  }

  /** A plain insert without any URL, or a link to its own text, which is one URL and is matched as a whole. */
  ghost predicate Final(insert: Insert) {
    && insert.text != ""
    && (match insert.link
        case None => NoMatchIn(Urls(insert.text), 0, |insert.text|)
        case Some(url) => url == insert.text && IsUrl(url) && Segments(url, Urls(url), 0) == [insert])
  }

  lemma LinkIsFinal(url: string)
    requires IsUrl(url)
    ensures Final(Link(url))
  {
    WholeUrl(url);
  }

  /** Running the matcher again on any of its inserts changes nothing. */
  lemma InsertsAreFinal(text: string, insert: Insert)
    requires insert in Segments(text, Urls(text), 0)
    ensures Final(insert)
  {
    var m := Urls(text);
    SegmentsAreACut(text, m, 0, false);
    var at := InsertOfCut(text, m, 0, Segments(text, m, 0), false, insert);
    PieceIsFinal(text, at, insert);
  }

  lemma PieceIsFinal(text: string, at: nat, insert: Insert)
    requires at + |insert.text| <= |text| && insert.text != "" && text[at..at + |insert.text|] == insert.text
    requires insert.link.None? ==> NoMatchIn(Urls(text), at, at + |insert.text|)
    requires insert.link.Some? ==> insert.link.value == insert.text && Urls(text)(at) == |insert.text|
    ensures Final(insert)
  {
    if insert.link.None? {
      NoMatchInPiece(text, at, at + |insert.text|);
    } else {
      MatchedIsUrl(text, at, |insert.text|);
      LinkIsFinal(insert.text);
    }
  }

  /** A string that is a URL is cut into one link. */
  lemma WholeUrl(url: string)
    requires IsUrl(url)
    ensures Segments(url, Urls(url), 0) == [Link(url)]
  {
    assert url[0..|url|] == url;
    MatchIsLongestUrl(url, 0, |url|);
    var m := Urls(url);
    assert m(0) == |url|;
    assert Segments(url, m, |url|) == [];
  }

  // ----- every URL is linked

  lemma UrlHasUrlChars(s: string)
    requires IsUrl(s)
    ensures forall k :: 0 <= k < |s| ==> UrlChar(s[k])
  {
    var prefix := if UrlAfter("http://", s) then "http://" else "https://";
    assert forall k :: 0 <= k < |prefix| ==> s[k] == s[..|prefix|][k] == prefix[k] && UrlChar(prefix[k]);
  }

  /** A match goes on up to white space, `<` or the end of the text. */
  lemma MatchEnds(text: string, at: nat)
    requires MatchLength(text, at) > 0
    ensures var end := at + MatchLength(text, at);
            end <= |text| && (end < |text| ==> IsSpace(text[end]) || text[end] == '<')
  {
    RunEnds(text, at + SchemeLength(text, at));
  }

  /** A URL that begins inside a match does not reach beyond it. */
  lemma UrlStaysInMatch(text: string, at: nat, i: nat, j: nat)
    requires MatchLength(text, at) > 0 && at <= i < at + MatchLength(text, at)
    requires i <= j <= |text| && IsUrl(text[i..j])
    ensures j <= at + MatchLength(text, at)
  {
    var end := at + MatchLength(text, at);
    MatchEnds(text, at);
    UrlHasUrlChars(text[i..j]);
    assert forall k :: i <= k < j ==> text[i..j][k - i] == text[k];
  }

  lemma LinkAt(text: string, inserts: seq<Insert>, k: nat)
    requires IsCut(text, Urls(text), 0, inserts, false) && k < |inserts| && inserts[k].link.Some?
    ensures inserts[k].link == Some(inserts[k].text)
    ensures MatchLength(text, |Spelled(inserts[..k])|) == |inserts[k].text| > 0
  {
    InsertAt(text, Urls(text), 0, inserts, false, k);
  }

  lemma UrlInLink(text: string, inserts: seq<Insert>, i: nat) returns (k: nat)
    requires IsCut(text, Urls(text), 0, inserts, false) && i < |text| && MatchLength(text, i) > 0
    ensures k < |inserts| && inserts[k].link.Some?
    ensures var at := |Spelled(inserts[..k])|; at <= i < at + |inserts[k].text|
  {
    assert Urls(text)(i) > 0;
    k := MatchInLink(text, Urls(text), 0, inserts, false, i);
  }

  /** Wherever a URL stands in a text, it lies inside one link insert. */
  lemma UrlsAreLinked(text: string, inserts: seq<Insert>, i: nat, j: nat) returns (k: nat)
    requires IsCut(text, Urls(text), 0, inserts, false) && i <= j <= |text| && IsUrl(text[i..j])
    ensures k < |inserts| && inserts[k].link == Some(inserts[k].text)
    ensures var at := |Spelled(inserts[..k])|; at <= i && j <= at + |inserts[k].text|
  {
    assert i + (j - i) == j;
    MatchIsLongestUrl(text, i, j - i);
    k := UrlInLink(text, inserts, i);
    LinkAt(text, inserts, k);
    UrlStaysInMatch(text, |Spelled(inserts[..k])|, i, j);
  }

  /** What follows a link is white space, a `<`, or nothing: links are never cut short. */
  lemma LinksEnd(text: string, inserts: seq<Insert>, k: nat)
    requires IsCut(text, Urls(text), 0, inserts, false) && k < |inserts| && inserts[k].link.Some?
    ensures var end := |Spelled(inserts[..k])| + |inserts[k].text|;
            end <= |text| && (end < |text| ==> IsSpace(text[end]) || text[end] == '<')
  {
    LinkAt(text, inserts, k);
    MatchEnds(text, |Spelled(inserts[..k])|);
  }
}
