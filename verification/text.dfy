/**
 * The string operations the itinerary code borrows from JavaScript:
 * `trim`, the `/\s+/g` whitespace collapse, `split` on one character,
 * `join`, one-character `replaceAll` and decimal rendering of integers.
 * Strings are sequences of Unicode scalar values.
 */
module Text {

  /**
   * The characters JavaScript's `\s` class and `String.prototype.trim` treat
   * as white space: the WhiteSpace and LineTerminator code points.
   */
  predicate IsSpace(c: char) {
    || c == '\U{0009}' || c == '\U{000A}' || c == '\U{000B}' || c == '\U{000C}'
    || c == '\U{000D}' || c == '\U{0020}' || c == '\U{00A0}' || c == '\U{1680}'
    || ('\U{2000}' <= c <= '\U{200A}')
    || c == '\U{2028}' || c == '\U{2029}' || c == '\U{202F}' || c == '\U{205F}'
    || c == '\U{3000}' || c == '\U{FEFF}'
  }

  predicate AllSpace(s: string) {
    forall i :: 0 <= i < |s| ==> IsSpace(s[i])
  }

  /** Length of the longest all-white-space prefix of `s`. */
  function LeadingSpaces(s: string): (n: nat)
    ensures n <= |s|
    ensures AllSpace(s[..n])
    ensures n < |s| ==> !IsSpace(s[n])
  {
    if s == [] || !IsSpace(s[0]) then 0 else 1 + LeadingSpaces(s[1..])
  }

  /** Length of the longest all-white-space suffix of `s`. */
  function TrailingSpaces(s: string): (n: nat)
    ensures n <= |s|
    ensures AllSpace(s[|s| - n..])
    ensures n < |s| ==> !IsSpace(s[|s| - n - 1])
  {
    if s == [] || !IsSpace(s[|s| - 1]) then 0 else 1 + TrailingSpaces(s[..|s| - 1])
  }

  /**
   * `s.trim()`: `s` with its leading and trailing white space removed and
   * nothing else changed.
   */
  function Trim(s: string): (r: string)
    ensures r == [] || (!IsSpace(r[0]) && !IsSpace(r[|r| - 1]))
    ensures LeadingSpaces(s) + |r| <= |s|
    ensures r == s[LeadingSpaces(s)..LeadingSpaces(s) + |r|]
    ensures AllSpace(s[LeadingSpaces(s) + |r|..])
  {
    var a := LeadingSpaces(s);
    var rest := s[a..];
    var t := TrailingSpaces(rest);
    TrimWindow(s, a, rest, t);
    rest[..|rest| - t]
  }

  /** The window between the leading and the trailing white space of `s`. */
  lemma TrimWindow(s: string, a: nat, rest: string, t: nat)
    requires a <= |s| && rest == s[a..] && t <= |rest|
    requires a < |s| ==> !IsSpace(s[a])
    requires AllSpace(rest[|rest| - t..])
    requires t < |rest| ==> !IsSpace(rest[|rest| - t - 1])
    ensures var r := rest[..|rest| - t];
      && (r == [] || (!IsSpace(r[0]) && !IsSpace(r[|r| - 1])))
      && a + |r| <= |s| && r == s[a..a + |r|] && AllSpace(s[a + |r|..])
  {
    var r := rest[..|rest| - t];
    assert s[a + |r|..] == rest[|rest| - t..];
    if r != [] {
      assert r[0] == s[a];
      assert r[|r| - 1] == rest[|rest| - t - 1];
    }
  }

  /** Trimming only removes white space. */
  lemma TrimKeepsText(s: string)
    ensures NonSpace(Trim(s)) == NonSpace(s)
  {
    var r := Trim(s);
    var a := LeadingSpaces(s);
    SplitThree(s, a, r);
    NonSpaceFramed(s[..a], r, s[a + |r|..]);
  }

  /** A string is its prefix, a stretch and the rest. */
  lemma SplitThree(s: string, a: nat, r: string)
    requires a + |r| <= |s| && r == s[a..a + |r|]
    ensures s == s[..a] + r + s[a + |r|..]
  {
  }

  /** White space around a text adds no non-space character. */
  lemma NonSpaceFramed(p: string, r: string, q: string)
    requires AllSpace(p) && AllSpace(q)
    ensures NonSpace(p + r + q) == NonSpace(r)
  {
    NonSpaceAppend(p + r, q);
    NonSpaceAppend(p, r);
    NonSpaceOfAllSpace(p);
    NonSpaceOfAllSpace(q);
  }

  /** Trimming a string without white space at either end changes nothing. */
  lemma TrimUntrimmed(s: string)
    requires s == [] || (!IsSpace(s[0]) && !IsSpace(s[|s| - 1]))
    ensures Trim(s) == s
  {
    assert LeadingSpaces(s) == 0;
    assert TrailingSpaces(s) == 0;
  }

  /** `s.replaceAll(/\s+/g, ' ')`: every maximal run of white space becomes one space. */
  function CollapseSpaces(s: string): (r: string)
    ensures |r| <= |s|
    ensures r != [] <==> s != []
    ensures r != [] ==> (IsSpace(r[0]) <==> IsSpace(s[0]))
    ensures forall i :: 0 <= i < |r| && IsSpace(r[i]) ==> r[i] == ' '
    ensures forall i :: 0 <= i < |r| - 1 ==> !(IsSpace(r[i]) && IsSpace(r[i + 1]))
    decreases |s|
  {
    if s == [] then []
    else if IsSpace(s[0]) then [' '] + CollapseSpaces(s[LeadingSpaces(s)..])
    else [s[0]] + CollapseSpaces(s[1..])
  }

  /** The characters of `s` that are not white space, in order. */
  function NonSpace(s: string): string {
    if s == [] then [] else (if IsSpace(s[0]) then [] else [s[0]]) + NonSpace(s[1..])
  }

  lemma {:induction false} NonSpaceOfAllSpace(s: string)
    requires AllSpace(s)
    ensures NonSpace(s) == []
  {
    if s != [] {
      NonSpaceOfAllSpace(s[1..]);
    }
  }

  /** Collapsing white space keeps every other character, in order. */
  lemma {:induction false} CollapseKeepsText(s: string)
    ensures NonSpace(CollapseSpaces(s)) == NonSpace(s)
    decreases |s|
  {
    if s == [] {
    } else if IsSpace(s[0]) {
      var n := LeadingSpaces(s);
      CollapseKeepsText(s[n..]);
      NonSpaceAppend(s[..n], s[n..]);
      assert s == s[..n] + s[n..];
      NonSpaceOfAllSpace(s[..n]);
      assert NonSpace([' '] + CollapseSpaces(s[n..])) == NonSpace(CollapseSpaces(s[n..])) by {
        assert ([' '] + CollapseSpaces(s[n..]))[1..] == CollapseSpaces(s[n..]);
      }
    } else {
      CollapseKeepsText(s[1..]);
      assert ([s[0]] + CollapseSpaces(s[1..]))[1..] == CollapseSpaces(s[1..]);
    }
  }

  lemma {:induction false} NonSpaceAppend(a: string, b: string)
    ensures NonSpace(a + b) == NonSpace(a) + NonSpace(b)
  {
    if a == [] {
      assert a + b == b;
    } else {
      var head := if IsSpace(a[0]) then [] else [a[0]];
      calc {
        NonSpace(a + b);
        { assert (a + b)[0] == a[0] && (a + b)[1..] == a[1..] + b; }
        head + NonSpace(a[1..] + b);
        { NonSpaceAppend(a[1..], b); }
        head + (NonSpace(a[1..]) + NonSpace(b));
        (head + NonSpace(a[1..])) + NonSpace(b);
      }
    }
  }

  /** Collapsing is idempotent: a collapsed string has no run left to collapse. */
  lemma {:induction false} CollapseIdempotent(s: string)
    ensures CollapseSpaces(CollapseSpaces(s)) == CollapseSpaces(s)
  {
    CollapseFixesCollapsed(CollapseSpaces(s));
  }

  lemma {:induction false} CollapseFixesCollapsed(s: string)
    requires forall i :: 0 <= i < |s| && IsSpace(s[i]) ==> s[i] == ' '
    requires forall i :: 0 <= i < |s| - 1 ==> !(IsSpace(s[i]) && IsSpace(s[i + 1]))
    ensures CollapseSpaces(s) == s
  {
    if s != [] {
      CollapseFixesCollapsed(s[1..]);
      if IsSpace(s[0]) {
        assert LeadingSpaces(s) == 1 by {
          if |s| > 1 { assert !IsSpace(s[1]); }
        }
      }
    }
  }

  /** Length of the longest prefix of `s` without white space. */
  function WordLength(s: string): (n: nat)
    ensures n <= |s|
    ensures forall i :: 0 <= i < n ==> !IsSpace(s[i])
    ensures n < |s| ==> IsSpace(s[n])
  {
    if s == [] || IsSpace(s[0]) then 0 else 1 + WordLength(s[1..])
  }

  /** A non-empty run of characters none of which is white space. */
  predicate IsWord(w: string) {
    w != [] && forall j :: 0 <= j < |w| ==> !IsSpace(w[j])
  }

  /** The maximal runs of characters other than white space, in order. */
  function Words(s: string): (ws: seq<string>)
    ensures forall i :: 0 <= i < |ws| ==> IsWord(ws[i])
    decreases |s|
  {
    var t := s[LeadingSpaces(s)..];
    if t == [] then []
    else
      var n := WordLength(t);
      assert n >= 1;
      [t[..n]] + Words(t[n..])
  }

  /** A text has no words exactly when it is all white space. */
  lemma WordsEmpty(s: string)
    ensures Words(s) == [] <==> AllSpace(s)
  {
    var a := LeadingSpaces(s);
    assert a < |s| ==> !IsSpace(s[a]);
    if a == |s| {
      assert s[..a] == s;
    }
  }

  /** Leading white space does not change the words. */
  lemma WordsSkipSpaces(s: string)
    ensures Words(s) == Words(s[LeadingSpaces(s)..])
  {
    var t := s[LeadingSpaces(s)..];
    assert LeadingSpaces(t) == 0;
    assert t[0..] == t;
  }

  /** A text starting with a word has that word first. */
  lemma WordsOfWordStart(s: string)
    requires s != [] && !IsSpace(s[0])
    ensures Words(s) == [s[..WordLength(s)]] + Words(s[WordLength(s)..])
  {
    assert LeadingSpaces(s) == 0;
    assert s[0..] == s;
  }

  /** Collapsing passes a word through unchanged. */
  lemma {:induction false} CollapseWord(w: string, rest: string)
    requires forall j :: 0 <= j < |w| ==> !IsSpace(w[j])
    ensures CollapseSpaces(w + rest) == w + CollapseSpaces(rest)
  {
    if w == [] {
      assert w + rest == rest;
    } else {
      assert (w + rest)[0] == w[0] && (w + rest)[1..] == w[1..] + rest;
      CollapseWord(w[1..], rest);
      assert w == [w[0]] + w[1..];
    }
  }

  /** One space standing for the white space before the first word, if any. */
  function LeadGap(s: string): string {
    if s != [] && IsSpace(s[0]) then " " else ""
  }

  /** One space standing for the white space after the last word, if any. */
  function TrailGap(s: string): string {
    if s != [] && Words(s) != [] && IsSpace(s[|s| - 1]) then " " else ""
  }

  /**
   * The collapsed text is the words joined by single spaces, with one
   * space before them when the text starts with white space and one after
   * them when it ends with white space after a word.
   */
  lemma {:induction false} CollapseIsJoinedWords(s: string)
    ensures CollapseSpaces(s) == LeadGap(s) + JoinWith(Words(s), " ") + TrailGap(s)
    decreases |s|
  {
    if s == [] {
    } else if IsSpace(s[0]) {
      CollapseIsJoinedWords(s[LeadingSpaces(s)..]);
      CollapseSpaceFirst(s);
    } else {
      CollapseIsJoinedWords(s[WordLength(s)..]);
      CollapseWordFirst(s);
    }
  }

  /** `CollapseIsJoinedWords` for a text starting with white space, from the case of the rest. */
  lemma CollapseSpaceFirst(s: string)
    requires s != [] && IsSpace(s[0])
    requires var t := s[LeadingSpaces(s)..];
      CollapseSpaces(t) == LeadGap(t) + JoinWith(Words(t), " ") + TrailGap(t)
    ensures CollapseSpaces(s) == LeadGap(s) + JoinWith(Words(s), " ") + TrailGap(s)
  {
    var t := s[LeadingSpaces(s)..];
    CollapseSpaceStep(s);
    SkipKeepsWords(s);
    SkipDropsLeadGap(s);
    SkipKeepsTrailGap(s);
    GapRegroup(CollapseSpaces(s), CollapseSpaces(t), " ", LeadGap(t), JoinWith(Words(s), " "), TrailGap(t), LeadGap(s), TrailGap(s));
  }

  /** The sequence algebra of `CollapseSpaceFirst`. */
  lemma GapRegroup(c: string, ct: string, sp: string, lt: string, j: string, tt: string, ls: string, ts: string)
    requires c == sp + ct && ct == lt + j + tt && lt == [] && ls == sp && tt == ts
    ensures c == ls + j + ts
  {
  }

  lemma CollapseSpaceStep(s: string)
    requires s != [] && IsSpace(s[0])
    ensures CollapseSpaces(s) == " " + CollapseSpaces(s[LeadingSpaces(s)..])
  {
  }

  lemma SkipKeepsWords(s: string)
    ensures Words(s[LeadingSpaces(s)..]) == Words(s)
  {
    WordsSkipSpaces(s);
  }

  lemma SkipDropsLeadGap(s: string)
    requires s != [] && IsSpace(s[0])
    ensures LeadGap(s[LeadingSpaces(s)..]) == "" && LeadGap(s) == " "
  {
  }

  /** Skipping leading white space keeps the trailing gap. */
  lemma SkipKeepsTrailGap(s: string)
    ensures TrailGap(s[LeadingSpaces(s)..]) == TrailGap(s)
  {
    var t := s[LeadingSpaces(s)..];
    WordsSkipSpaces(s);
    if Words(s) != [] {
      TrailGapOfWords(s);
      TrailGapOfWords(t);
      assert t[|t| - 1] == s[|s| - 1];
    }
  }

  /** `CollapseIsJoinedWords` for a text starting with a word, from the case of the rest. */
  lemma CollapseWordFirst(s: string)
    requires s != [] && !IsSpace(s[0])
    requires var rest := s[WordLength(s)..];
      CollapseSpaces(rest) == LeadGap(rest) + JoinWith(Words(rest), " ") + TrailGap(rest)
    ensures CollapseSpaces(s) == LeadGap(s) + JoinWith(Words(s), " ") + TrailGap(s)
  {
    var rest := s[WordLength(s)..];
    if rest == [] {
      CollapseWordAlone(s);
    } else if Words(rest) == [] {
      CollapseWordThenSpaces(s);
    } else {
      CollapseWordThenWords(s);
    }
  }

  lemma CollapseWordAlone(s: string)
    requires s != [] && !IsSpace(s[0]) && s[WordLength(s)..] == []
    ensures CollapseSpaces(s) == LeadGap(s) + JoinWith(Words(s), " ") + TrailGap(s)
  {
    AloneCollapse(s);
    AloneWords(s);
    JoinOne(s, []);
    WordEndsText(s);
    AloneRegroup(CollapseSpaces(s), s, JoinWith(Words(s), " "), LeadGap(s), TrailGap(s));
  }

  /** A text that is one word collapses to itself. */
  lemma AloneCollapse(s: string)
    requires s != [] && !IsSpace(s[0]) && s[WordLength(s)..] == []
    ensures CollapseSpaces(s) == s
  {
    WordStep(s);
    WordEndsText(s);
    assert s[..WordLength(s)] == s;
  }

  /** A text that is one word is its only word. */
  lemma AloneWords(s: string)
    requires s != [] && !IsSpace(s[0]) && s[WordLength(s)..] == []
    ensures Words(s) == [s]
  {
    WordsOfWordStart(s);
    assert s[..WordLength(s)] == s;
    WordsOfNothing(s[WordLength(s)..]);
  }

  lemma AloneRegroup(c: string, s: string, j: string, ls: string, ts: string)
    requires c == s && j == s && ls == [] && ts == []
    ensures c == ls + j + ts
  {
  }

  lemma WordsOfNothing(s: string)
    requires s == []
    ensures Words(s) == []
  {
  }

  lemma CollapseWordThenSpaces(s: string)
    requires s != [] && !IsSpace(s[0])
    requires var rest := s[WordLength(s)..];
      && rest != [] && Words(rest) == []
      && CollapseSpaces(rest) == LeadGap(rest) + JoinWith(Words(rest), " ") + TrailGap(rest)
    ensures CollapseSpaces(s) == LeadGap(s) + JoinWith(Words(s), " ") + TrailGap(s)
  {
    var w := s[..WordLength(s)];
    var rest := s[WordLength(s)..];
    WordStep(s);
    WordsOfWordStart(s);
    JoinOne(w, Words(rest));
    WordThenSpaces(s);
    SpaceTailRegroup(CollapseSpaces(s), w, CollapseSpaces(rest), LeadGap(rest), JoinWith(Words(rest), " "), TrailGap(rest),
                     JoinWith(Words(s), " "), LeadGap(s), TrailGap(s));
  }

  lemma CollapseWordThenWords(s: string)
    requires s != [] && !IsSpace(s[0])
    requires var rest := s[WordLength(s)..];
      && rest != [] && Words(rest) != []
      && CollapseSpaces(rest) == LeadGap(rest) + JoinWith(Words(rest), " ") + TrailGap(rest)
    ensures CollapseSpaces(s) == LeadGap(s) + JoinWith(Words(s), " ") + TrailGap(s)
  {
    var w := s[..WordLength(s)];
    var rest := s[WordLength(s)..];
    WordStep(s);
    WordsOfWordStart(s);
    JoinCons(w, Words(rest), " ");
    WordThenWords(s);
    WordRegroup(CollapseSpaces(s), w, CollapseSpaces(rest), " ", JoinWith(Words(rest), " "), TrailGap(rest),
                JoinWith(Words(s), " "), LeadGap(s), TrailGap(s));
  }

  /** Collapsing a text that starts with a word keeps the word. */
  lemma WordStep(s: string)
    requires s != [] && !IsSpace(s[0])
    ensures CollapseSpaces(s) == s[..WordLength(s)] + CollapseSpaces(s[WordLength(s)..])
  {
    assert s == s[..WordLength(s)] + s[WordLength(s)..];
    CollapseWord(s[..WordLength(s)], s[WordLength(s)..]);
  }

  lemma JoinOne(w: string, ws: seq<string>)
    requires ws == []
    ensures JoinWith([w] + ws, " ") == w
  {
    assert [w] + ws == [w];
  }

  lemma JoinCons(w: string, ws: seq<string>, sep: string)
    requires ws != []
    ensures JoinWith([w] + ws, sep) == w + sep + JoinWith(ws, sep)
  {
    assert ([w] + ws)[1..] == ws;
  }

  /** The gaps of a text that is a single word. */
  lemma WordEndsText(s: string)
    requires s != [] && !IsSpace(s[0]) && WordLength(s) == |s|
    ensures LeadGap(s) == [] && TrailGap(s) == [] && CollapseSpaces(s[WordLength(s)..]) == []
  {
    assert !IsSpace(s[|s| - 1]);
  }

  /** The gaps of a word followed by white space only. */
  lemma WordThenSpaces(s: string)
    requires s != [] && !IsSpace(s[0])
    requires var rest := s[WordLength(s)..]; rest != [] && Words(rest) == []
    ensures var rest := s[WordLength(s)..];
      && LeadGap(s) == [] && TrailGap(s) == " "
      && LeadGap(rest) == " " && TrailGap(rest) == [] && JoinWith(Words(rest), " ") == []
  {
    var rest := s[WordLength(s)..];
    WordsOfWordStart(s);
    WordsEmpty(rest);
    assert rest[|rest| - 1] == s[|s| - 1];
  }

  /** The gaps of a word followed by more words. */
  lemma WordThenWords(s: string)
    requires s != [] && !IsSpace(s[0])
    requires var rest := s[WordLength(s)..]; rest != [] && Words(rest) != []
    ensures var rest := s[WordLength(s)..];
      LeadGap(s) == [] && LeadGap(rest) == " " && TrailGap(s) == TrailGap(rest)
  {
    var n := WordLength(s);
    var rest := s[n..];
    assert rest[0] == s[n];
    WordsOfWordStart(s);
    TrailGapOfWords(s);
    TrailGapOfWords(rest);
    assert rest[|rest| - 1] == s[|s| - 1];
  }

  /** With a word present, the trailing gap depends on the last character alone. */
  lemma TrailGapOfWords(s: string)
    requires Words(s) != []
    ensures s != [] && TrailGap(s) == if IsSpace(s[|s| - 1]) then " " else ""
  {
    if s == [] {
      WordsOfNothing(s);
    }
  }

  /** The sequence algebra of `CollapseWordFirst` when only white space follows the word. */
  lemma SpaceTailRegroup(c: string, w: string, cr: string, lr: string, jr: string, tr: string, j: string, ls: string, ts: string)
    requires c == w + cr && cr == lr + jr + tr && lr == " " && jr == [] && tr == []
    requires j == w && ls == [] && ts == " "
    ensures c == ls + j + ts
  {
  }

  /** The sequence algebra of `CollapseWordFirst`. */
  lemma WordRegroup(c: string, w: string, cr: string, lr: string, jr: string, tr: string, j: string, ls: string, ts: string)
    requires c == w + cr && cr == lr + jr + tr
    requires j == w + lr + jr && ls == [] && ts == tr
    ensures c == ls + j + ts
  {
  }

  /** The leading white space of `p + t` is exactly `p` when `t` does not start with white space. */
  lemma {:induction false} LeadingOfSpaced(p: string, t: string)
    requires AllSpace(p) && (t == [] || !IsSpace(t[0]))
    ensures LeadingSpaces(p + t) == |p|
  {
    if p == [] {
      assert p + t == t;
    } else {
      assert (p + t)[0] == p[0] && (p + t)[1..] == p[1..] + t;
      LeadingOfSpaced(p[1..], t);
    }
  }

  /** The trailing white space of `t + q` is exactly `q` when `t` does not end with white space. */
  lemma {:induction false} TrailingOfSpaced(t: string, q: string)
    requires AllSpace(q) && (t == [] || !IsSpace(t[|t| - 1]))
    ensures TrailingSpaces(t + q) == |q|
  {
    if q == [] {
      assert t + q == t;
    } else {
      var s := t + q;
      assert s[|s| - 1] == q[|q| - 1];
      assert s[..|s| - 1] == t + q[..|q| - 1];
      TrailingOfSpaced(t, q[..|q| - 1]);
    }
  }

  /** Trimming removes exactly the white space around a text that has none at its ends. */
  lemma TrimAround(p: string, x: string, q: string)
    requires AllSpace(p) && AllSpace(q)
    requires x == [] || (!IsSpace(x[0]) && !IsSpace(x[|x| - 1]))
    ensures Trim(p + x + q) == x
  {
    var s := p + x + q;
    if x == [] {
      assert AllSpace(s);
      assert LeadingSpaces(s) == |s|;
    } else {
      assert s == p + (x + q);
      LeadingOfSpaced(p, x + q);
      assert s[|p|..] == x + q;
      TrailingOfSpaced(x, q);
      assert (x + q)[..|x|] == x;
    }
  }

  /** Joined words neither start nor end with white space. */
  lemma {:induction false} JoinedWordsUntrimmed(ws: seq<string>)
    requires forall i :: 0 <= i < |ws| ==> IsWord(ws[i])
    ensures var j := JoinWith(ws, " "); j == [] || (!IsSpace(j[0]) && !IsSpace(j[|j| - 1]))
  {
    if |ws| > 1 {
      var rest := ws[1..];
      JoinedWordsUntrimmed(rest);
      assert IsWord(rest[0]);
      var j := JoinWith(ws, " ");
      assert j == ws[0] + " " + JoinWith(rest, " ");
      assert j[0] == ws[0][0];
    } else if |ws| == 1 {
      assert IsWord(ws[0]);
    }
  }

  /**
   * `s.replaceAll(/\s+/g, ' ').trim()` is the words of `s` joined by
   * single spaces.
   */
  lemma CollapseTrimIsJoinedWords(s: string)
    ensures Trim(CollapseSpaces(s)) == JoinWith(Words(s), " ")
  {
    CollapseIsJoinedWords(s);
    JoinedWordsUntrimmed(Words(s));
    TrimAround(LeadGap(s), JoinWith(Words(s), " "), TrailGap(s));
  }

  /** Occurrences of `c` in `s`. */
  function Count(s: string, c: char): nat {
    multiset(s)[c]
  }

  /** `s.split(sep)` for a one-character separator: the pieces between separators. */
  function Split(s: string, sep: char): (r: seq<string>)
    ensures |r| >= 1
  {
    if s == [] then [[]]
    else
      var rest := Split(s[1..], sep);
      if s[0] == sep then [[]] + rest
      else [[s[0]] + rest[0]] + rest[1..]
  }

  /**
   * There is one piece more than there are separators, no piece contains
   * the separator, and the first piece is the text up to the first
   * separator.
   */
  lemma {:induction false} SplitFacts(s: string, sep: char)
    ensures var r := Split(s, sep);
      && |r| == Count(s, sep) + 1
      && (forall i :: 0 <= i < |r| ==> sep !in r[i])
      && |r[0]| <= |s| && r[0] == s[..|r[0]|]
      && (|r[0]| < |s| ==> s[|r[0]|] == sep)
  {
    if s != [] {
      SplitFacts(s[1..], sep);
      assert s == [s[0]] + s[1..];
      var rest := Split(s[1..], sep);
      var r := Split(s, sep);
      assert multiset(s) == multiset{s[0]} + multiset(s[1..]);
      if s[0] != sep {
        assert r[0] == [s[0]] + rest[0];
        forall i | 0 <= i < |r| ensures sep !in r[i] {
          if i > 0 { assert r[i] == rest[i]; }
        }
      } else {
        forall i | 0 <= i < |r| ensures sep !in r[i] {
          if i > 0 { assert r[i] == rest[i - 1]; }
        }
      }
    }
  }

  /** The first piece of `s.split(sep)`: the text before the first separator, or all of it. */
  function FirstPiece(s: string, sep: char): (r: string)
    ensures |r| <= |s| && r == s[..|r|]
    ensures sep !in r
    ensures |r| < |s| ==> s[|r|] == sep
  {
    SplitFacts(s, sep);
    Split(s, sep)[0]
  }

  /** `parts.join(sep)`. */
  function JoinWith(parts: seq<string>, sep: string): string {
    if parts == [] then []
    else if |parts| == 1 then parts[0]
    else parts[0] + sep + JoinWith(parts[1..], sep)
  }

  /** Joining the pieces of a split with the separator gives back the string. */
  lemma {:induction false} SplitThenJoin(s: string, sep: char)
    ensures JoinWith(Split(s, sep), [sep]) == s
  {
    if s != [] {
      var rest := Split(s[1..], sep);
      SplitThenJoin(s[1..], sep);
      if s[0] == sep {
        assert ([[]] + rest)[1..] == rest;
      } else {
        var r := [[s[0]] + rest[0]] + rest[1..];
        assert r[1..] == rest[1..];
        if |rest| > 1 {
          assert JoinWith(rest, [sep]) == rest[0] + [sep] + JoinWith(rest[1..], [sep]);
        }
      }
    }
  }

  /** Splitting the join of separator-free pieces gives back the pieces. */
  lemma {:induction false} JoinThenSplit(parts: seq<string>, sep: char)
    requires |parts| >= 1
    requires forall i :: 0 <= i < |parts| ==> sep !in parts[i]
    ensures Split(JoinWith(parts, [sep]), sep) == parts
    decreases |parts|, |parts[0]|
  {
    var p := parts[0];
    if p == [] {
      if |parts| > 1 {
        var rest := parts[1..];
        assert forall i :: 0 <= i < |rest| ==> sep !in rest[i] by {
          forall i | 0 <= i < |rest| ensures sep !in rest[i] {
            assert rest[i] == parts[i + 1];
          }
        }
        JoinThenSplit(rest, sep);
        SplitAfterEmptyHead(parts, sep);
      } else {
        SingleEmptyPart(parts, sep);
      }
    } else {
      var shorter := [p[1..]] + parts[1..];
      ShorterSepFree(parts, sep);
      JoinThenSplit(shorter, sep);
      SplitAfterNonEmptyHead(parts, sep);
    }
  }

  /** Dropping the first character of the first part keeps every part separator-free. */
  lemma ShorterSepFree(parts: seq<string>, sep: char)
    requires |parts| >= 1 && parts[0] != []
    requires forall i :: 0 <= i < |parts| ==> sep !in parts[i]
    ensures var shorter := [parts[0][1..]] + parts[1..];
      forall i :: 0 <= i < |shorter| ==> sep !in shorter[i]
  {
    var p := parts[0];
    var shorter := [p[1..]] + parts[1..];
    forall i | 0 <= i < |shorter| ensures sep !in shorter[i] {
      if i == 0 {
        assert p == [p[0]] + p[1..];
        assert multiset(p[1..]) <= multiset(p);
      } else {
        assert shorter[i] == parts[i];
      }
    }
  }

  lemma SplitAfterNonEmptyHead(parts: seq<string>, sep: char)
    requires |parts| >= 1 && parts[0] != [] && sep !in parts[0]
    requires Split(JoinWith([parts[0][1..]] + parts[1..], [sep]), sep) == [parts[0][1..]] + parts[1..]
    ensures Split(JoinWith(parts, [sep]), sep) == parts
  {
    var p := parts[0];
    var shorter := [p[1..]] + parts[1..];
    var js := JoinWith(shorter, [sep]);
    assert p[0] in p;
    JoinWithHead(parts, p[0], sep);
    SplitCons(p[0], js, sep);
    assert Split(JoinWith(parts, [sep]), sep) == [[p[0]] + shorter[0]] + shorter[1..];
    assert [p[0]] + shorter[0] == p;
    assert shorter[1..] == parts[1..];
    assert parts == [p] + parts[1..];
  }

  lemma SingleEmptyPart(parts: seq<string>, sep: char)
    requires |parts| == 1 && parts[0] == []
    ensures Split(JoinWith(parts, [sep]), sep) == parts
  {
    assert JoinWith(parts, [sep]) == [];
  }

  lemma SplitAfterEmptyHead(parts: seq<string>, sep: char)
    requires |parts| > 1 && parts[0] == []
    requires Split(JoinWith(parts[1..], [sep]), sep) == parts[1..]
    ensures Split(JoinWith(parts, [sep]), sep) == parts
  {
    var rest := parts[1..];
    assert JoinWith(parts, [sep]) == [sep] + JoinWith(rest, [sep]);
    SplitCons(sep, JoinWith(rest, [sep]), sep);
    assert parts == [[]] + rest;
  }

  lemma JoinWithHead(parts: seq<string>, c: char, sep: char)
    requires |parts| >= 1 && parts[0] != [] && parts[0][0] == c
    ensures JoinWith(parts, [sep]) == [c] + JoinWith([parts[0][1..]] + parts[1..], [sep])
  {
    var p := parts[0];
    var shorter := [p[1..]] + parts[1..];
    assert p == [c] + p[1..];
    assert |shorter| == |parts| && shorter[0] == p[1..];
    if |parts| == 1 {
      assert JoinWith(parts, [sep]) == p;
      assert JoinWith(shorter, [sep]) == p[1..];
    } else {
      assert shorter[1..] == parts[1..];
      var tail := JoinWith(parts[1..], [sep]);
      assert JoinWith(parts, [sep]) == p + [sep] + tail;
      assert JoinWith(shorter, [sep]) == p[1..] + [sep] + tail;
    }
  }

  lemma SplitCons(c: char, t: string, sep: char)
    ensures Split([c] + t, sep) ==
      if c == sep then [[]] + Split(t, sep)
      else [[c] + Split(t, sep)[0]] + Split(t, sep)[1..]
  {
    assert ([c] + t)[1..] == t;
  }

  /** `s.replaceAll(c, rep)` for a one-character pattern. */
  function ReplaceChar(s: string, c: char, rep: string): string {
    if s == [] then [] else (if s[0] == c then rep else [s[0]]) + ReplaceChar(s[1..], c, rep)
  }

  lemma {:induction false} ReplaceCharAppend(a: string, b: string, c: char, rep: string)
    ensures ReplaceChar(a + b, c, rep) == ReplaceChar(a, c, rep) + ReplaceChar(b, c, rep)
  {
    if a == [] {
      assert a + b == b;
    } else {
      var head := if a[0] == c then rep else [a[0]];
      calc {
        ReplaceChar(a + b, c, rep);
        { assert (a + b)[0] == a[0] && (a + b)[1..] == a[1..] + b; }
        head + ReplaceChar(a[1..] + b, c, rep);
        { ReplaceCharAppend(a[1..], b, c, rep); }
        head + (ReplaceChar(a[1..], c, rep) + ReplaceChar(b, c, rep));
        (head + ReplaceChar(a[1..], c, rep)) + ReplaceChar(b, c, rep);
      }
    }
  }

  function DigitChar(d: nat): (c: char)
    requires d < 10
    ensures '0' <= c <= '9'
    ensures c as int - '0' as int == d
  {
    ('0' as int + d) as char
  }

  predicate IsDigits(s: string) {
    forall i :: 0 <= i < |s| ==> '0' <= s[i] <= '9'
  }

  /** Decimal rendering of a natural number, as `String(n)` writes it. */
  function NatText(n: nat): (r: string)
    ensures |r| >= 1 && IsDigits(r)
    ensures |r| > 1 ==> r[0] != '0'
  {
    if n < 10 then [DigitChar(n)] else NatText(n / 10) + [DigitChar(n % 10)]
  }

  /** The number a string of decimal digits denotes. */
  function DigitsValue(s: string): nat
    requires IsDigits(s)
  {
    if s == [] then 0 else 10 * DigitsValue(s[..|s| - 1]) + ((s[|s| - 1] as int - '0' as int) as nat)
  }

  /** Reading back the rendering of `n` gives `n`. */
  lemma {:induction false} NatTextRoundTrip(n: nat)
    ensures DigitsValue(NatText(n)) == n
  {
    if n >= 10 {
      NatTextRoundTrip(n / 10);
      var r := NatText(n / 10) + [DigitChar(n % 10)];
      assert r[..|r| - 1] == NatText(n / 10);
      assert r[|r| - 1] as int - '0' as int == n % 10;
    }
  }

  /** Decimal rendering of an integer, with a leading `-` when negative. */
  function IntText(n: int): string {
    if n < 0 then "-" + NatText(-n) else NatText(n)
  }
}
