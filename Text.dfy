/**
  * Cleaning of raw review text before it is embedded in a classification prompt
  * (clean_review_text), together with the parts of Python's str API it relies on:
  * split() and strip() without arguments, " ".join and str.replace.
  */
module Text {

  datatype Option<T> = None | Some(value: T)

  /** The Unicode database queries the cleaner makes, left uninterpreted:
    * nfkd is unicodedata.normalize('NFKD', _), inCategoryC(c) holds when
    * unicodedata.category(c) starts with 'C', and lower is str.lower. */
  datatype Unicode = Unicode(nfkd: string -> string, inCategoryC: char -> bool, lower: string -> string)

  /** Python's str.isspace, the separator set of split() and strip() without arguments. */
  predicate IsSpace(c: char)
  {
    || c == ' '
    || '\t' <= c <= '\r'
    || '\U{1C}' <= c <= '\U{1F}'
    || c == '\U{85}' || c == '\U{A0}' || c == '\U{1680}'
    || '\U{2000}' <= c <= '\U{200A}'
    || c == '\U{2028}' || c == '\U{2029}' || c == '\U{202F}' || c == '\U{205F}' || c == '\U{3000}'
  }

  /** A token of split(): non-empty, no whitespace inside. */
  predicate IsWord(w: string)
  {
    |w| > 0 && forall i :: 0 <= i < |w| ==> !IsSpace(w[i])
  }

  predicate AllWords(ws: seq<string>)
  {
    forall i :: 0 <= i < |ws| ==> IsWord(ws[i])
  }

  /** Length of the leading run of non-whitespace characters of s. */
  function WordLength(s: string): (n: nat)
    ensures n <= |s|
    ensures forall i :: 0 <= i < n ==> !IsSpace(s[i])
    ensures n < |s| ==> IsSpace(s[n])
  {
    if s == [] || IsSpace(s[0]) then 0 else 1 + WordLength(s[1..])
  }

  /** str.split() with no separator: the maximal whitespace-free runs, in order. */
  function Split(s: string): (ws: seq<string>)
    ensures AllWords(ws)
    decreases |s|
  {
    if s == [] then []
    else if IsSpace(s[0]) then Split(s[1..])
    else
      var n := WordLength(s);
      [s[..n]] + Split(s[n..])
  }

  /** sep.join(ws) */
  function Join(ws: seq<string>, sep: string): string
  {
    if ws == [] then ""
    else if |ws| == 1 then ws[0]
    else ws[0] + sep + Join(ws[1..], sep)
  }

  function StripLeft(s: string): string
  {
    if s != [] && IsSpace(s[0]) then StripLeft(s[1..]) else s
  }

  function StripRight(s: string): string
  {
    if s != [] && IsSpace(s[|s| - 1]) then StripRight(s[..|s| - 1]) else s
  }

  /** str.strip() with no argument. */
  function Strip(s: string): string
  {
    StripRight(StripLeft(s))
  }

  /** str.replace(pat, rep): every non-overlapping occurrence of pat, scanning
    * left to right, is replaced by rep. */
  function ReplaceAll(s: string, pat: string, rep: string): string
    requires |pat| > 0
    decreases |s|
  {
    if |s| < |pat| then s
    else if s[..|pat|] == pat then rep + ReplaceAll(s[|pat|..], pat, rep)
    else [s[0]] + ReplaceAll(s[1..], pat, rep)
  }

  /** A string laid out as " ".join of words: only plain spaces as whitespace,
    * none at either end, never two in a row. */
  predicate Collapsed(s: string)
  {
    && (forall i :: 0 <= i < |s| ==> IsSpace(s[i]) ==> s[i] == ' ')
    && (s != [] ==> s[0] != ' ' && s[|s| - 1] != ' ')
    && (forall i :: 0 <= i < |s| - 1 ==> s[i] == ' ' ==> s[i + 1] != ' ')
  }

  /** The four curly-quote literals of the cleaner as the file spells them: each
    * UTF-8 quotation mark read back as Mac Roman text, three characters with
    * U+00C4 in the middle. */
  const LeftDoubleMojibake: string := "\U{201A}\U{C4}\U{FA}"
  const RightDoubleMojibake: string := "\U{201A}\U{C4}\U{F9}"
  const LeftSingleMojibake: string := "\U{201A}\U{C4}\U{F2}"
  const RightSingleMojibake: string := "\U{201A}\U{C4}\U{F4}"

  /** The quotation marks those literals stand for: U+201C, U+201D, U+2018, U+2019. */
  const CurlyQuotes: seq<char> := ['\U{201C}', '\U{201D}', '\U{2018}', '\U{2019}']

  /** The filter of the cleaner: characters of Unicode category C are dropped,
    * except newline, carriage return and tab. */
  predicate Kept(u: Unicode, c: char)
  {
    !u.inCategoryC(c) || c == '\n' || c == '\r' || c == '\t'
  }

  function KeepPrintable(u: Unicode, s: string): (r: string)
    ensures forall i :: 0 <= i < |r| ==> Kept(u, r[i]) && r[i] in s
    ensures forall c :: multiset(r)[c] == if Kept(u, c) then multiset(s)[c] else 0
  {
    if s == [] then []
    else
      assert s == [s[0]] + s[1..];
      (if Kept(u, s[0]) then [s[0]] else []) + KeepPrintable(u, s[1..])
  }

  /** The chain of replace calls as written: the double quote first, then the
    * four literals above. */
  function NormaliseQuotesAsWritten(s: string): string
  {
    var s1 := ReplaceAll(s, "\"", "'");
    var s2 := ReplaceAll(s1, LeftDoubleMojibake, "'");
    var s3 := ReplaceAll(s2, RightDoubleMojibake, "'");
    var s4 := ReplaceAll(s3, LeftSingleMojibake, "'");
    ReplaceAll(s4, RightSingleMojibake, "'")
  }

  /** The chain of replace calls as intended: the double quote and each of the
    * four quotation marks become an apostrophe. */
  function NormaliseQuotes(s: string): string
  {
    var s1 := ReplaceAll(s, "\"", "'");
    var s2 := ReplaceAll(s1, [CurlyQuotes[0]], "'");
    var s3 := ReplaceAll(s2, [CurlyQuotes[1]], "'");
    var s4 := ReplaceAll(s3, [CurlyQuotes[2]], "'");
    ReplaceAll(s4, [CurlyQuotes[3]], "'")
  }

  /** " ".join(s.split()) */
  function CollapseWhitespace(s: string): string
  {
    Join(Split(s), " ")
  }

  /** The text the cleaner splits into words: decomposed, filtered, quotes replaced. */
  function Prepared(u: Unicode, t: string): string
  {
    NormaliseQuotes(KeepPrintable(u, u.nfkd(t)))
  }

  /** The same text with the quote replacements as written. */
  function PreparedAsWritten(u: Unicode, t: string): string
  {
    NormaliseQuotesAsWritten(KeepPrintable(u, u.nfkd(t)))
  }

  /** clean_review_text: a missing (NaN) or empty review becomes ""; otherwise the
    * text is decomposed, filtered, has its quotes replaced by ', and its
    * whitespace runs collapsed to single spaces and trimmed. */
  function CleanReviewText(u: Unicode, text: Option<string>): (r: string)
    ensures text == None || text == Some("") ==> r == ""
    ensures Collapsed(r)
    ensures '"' !in r && forall q :: q in CurlyQuotes ==> q !in r
    ensures text.Some? && text.value != "" ==> Split(r) == Split(Prepared(u, text.value))
  {
    match text
    case None => ""
    case Some(t) =>
      if t == "" then ""
      else
        var prepared := Prepared(u, t);
        NoQuoteSurvives(KeepPrintable(u, u.nfkd(t)));
        CollapsedFacts(prepared);
        Strip(CollapseWhitespace(prepared))
  }

  /** Collapsing and trimming text free of quotes yields collapsed text, still free of
    * quotes, with the same words. */
  lemma CollapsedFacts(prepared: string)
    requires '"' !in prepared && forall q :: q in CurlyQuotes ==> q !in prepared
    ensures var r := Strip(CollapseWhitespace(prepared));
      && Collapsed(r)
      && '"' !in r && (forall q :: q in CurlyQuotes ==> q !in r)
      && Split(r) == Split(prepared)
  {
    var collapsed := CollapseWhitespace(prepared);
    SplitChars(prepared);
    JoinChars(Split(prepared), " ");
    JoinCollapsed(Split(prepared));
    StripCollapsed(collapsed);
    SplitJoin(Split(prepared));
  }

  // ---------------------------------------------------------------------------
  // Lemmas about the string operations

  /** Every character of a split() token comes from the input. */
  lemma {:induction false} SplitChars(s: string)
    ensures forall i, j :: 0 <= i < |Split(s)| && 0 <= j < |Split(s)[i]| ==> Split(s)[i][j] in s
    decreases |s|
  {
    if s == [] {
    } else if IsSpace(s[0]) {
      SplitChars(s[1..]);
    } else {
      var n := WordLength(s);
      SplitChars(s[n..]);
      forall i, j | 0 <= i < |Split(s)| && 0 <= j < |Split(s)[i]|
        ensures Split(s)[i][j] in s
      {
        if i == 0 {
          assert Split(s)[0] == s[..n];
          assert s[..n][j] == s[j];
        } else {
          assert Split(s)[i] == Split(s[n..])[i - 1];
          assert Split(s[n..])[i - 1][j] in s[n..];
        }
      }
    }
  }

  /** Every character of a join is a separator character or a character of some part. */
  lemma {:induction false} JoinChars(ws: seq<string>, sep: string)
    ensures forall k :: 0 <= k < |Join(ws, sep)| ==>
      Join(ws, sep)[k] in sep || exists i, j :: 0 <= i < |ws| && 0 <= j < |ws[i]| && ws[i][j] == Join(ws, sep)[k]
  {
    if |ws| > 1 {
      JoinChars(ws[1..], sep);
      var rest := Join(ws[1..], sep);
      assert Join(ws, sep) == ws[0] + sep + rest;
      forall k | 0 <= k < |Join(ws, sep)|
        ensures Join(ws, sep)[k] in sep || exists i, j :: 0 <= i < |ws| && 0 <= j < |ws[i]| && ws[i][j] == Join(ws, sep)[k]
      {
        if k < |ws[0]| {
          assert ws[0][k] == Join(ws, sep)[k];
        } else if k < |ws[0]| + |sep| {
          assert Join(ws, sep)[k] == sep[k - |ws[0]|];
        } else {
          var k' := k - |ws[0]| - |sep|;
          assert Join(ws, sep)[k] == rest[k'];
          if rest[k'] !in sep {
            var i, j :| 0 <= i < |ws[1..]| && 0 <= j < |ws[1..][i]| && ws[1..][i][j] == rest[k'];
            assert ws[i + 1][j] == Join(ws, sep)[k];
          }
        }
      }
    } else if |ws| == 1 {
      forall k | 0 <= k < |Join(ws, sep)|
        ensures exists i, j :: 0 <= i < |ws| && 0 <= j < |ws[i]| && ws[i][j] == Join(ws, sep)[k]
      {
        assert ws[0][k] == Join(ws, sep)[k];
      }
    }
  }

  /** Joining split() tokens with one space yields a collapsed string. */
  lemma {:induction false} JoinCollapsed(ws: seq<string>)
    requires AllWords(ws)
    ensures Collapsed(Join(ws, " "))
  {
    if |ws| > 1 {
      JoinCollapsed(ws[1..]);
      assert IsWord(ws[0]) && IsWord(ws[1]);
      var rest := Join(ws[1..], " ");
      var s := Join(ws, " ");
      assert s == ws[0] + " " + rest;
      assert |rest| > 0 && rest[0] != ' ' by {
        if |ws[1..]| == 1 {
        } else {
          assert rest == ws[1] + " " + Join(ws[2..], " ");
          assert rest[0] == ws[1][0];
        }
      }
      assert forall i :: 0 <= i < |ws[0]| ==> s[i] == ws[0][i];
      assert forall i :: |ws[0]| < i < |s| ==> s[i] == rest[i - |ws[0]| - 1];
      assert s[0] == ws[0][0];
      assert s[|s| - 1] == rest[|rest| - 1];
    } else if |ws| == 1 {
      assert IsWord(ws[0]);
    }
  }

  /** strip() leaves a collapsed string unchanged. */
  lemma StripCollapsed(s: string)
    requires Collapsed(s)
    ensures Strip(s) == s
  {
    assert StripLeft(s) == s;
    if s != [] {
      assert !IsSpace(s[|s| - 1]);
    }
  }

  /** split() of a word followed by a space and more text yields that word first. */
  lemma SplitWordSpace(w: string, rest: string)
    requires IsWord(w)
    ensures Split(w + " " + rest) == [w] + Split(rest)
  {
    var s := w + " " + rest;
    assert WordLength(s) == |w| by {
      assert s == w + (" " + rest);
      WordLengthPrefix(w, " " + rest);
    }
    assert s[..|w|] == w;
    assert s[|w|..] == " " + rest;
    assert (" " + rest)[1..] == rest;
  }

  lemma {:induction false} WordLengthPrefix(w: string, rest: string)
    requires forall i :: 0 <= i < |w| ==> !IsSpace(w[i])
    requires rest == [] || IsSpace(rest[0])
    ensures WordLength(w + rest) == |w|
  {
    if w != [] {
      assert (w + rest)[1..] == w[1..] + rest;
      WordLengthPrefix(w[1..], rest);
    } else {
      assert w + rest == rest;
    }
  }

  /** split() of a single token is that token. */
  lemma SplitWord(w: string)
    requires IsWord(w)
    ensures Split(w) == [w]
  {
    WordLengthPrefix(w, []);
    assert w + [] == w;
    assert w[..|w|] == w;
    assert w[|w|..] == [];
  }

  /** Round trip: split() recovers the tokens that were joined with spaces. */
  lemma {:induction false} SplitJoin(ws: seq<string>)
    requires AllWords(ws)
    ensures Split(Join(ws, " ")) == ws
  {
    if |ws| == 1 {
      SplitWord(ws[0]);
    } else if |ws| > 1 {
      SplitJoin(ws[1..]);
      SplitWordSpace(ws[0], Join(ws[1..], " "));
    }
  }

  /** Collapsing whitespace twice is the same as once. */
  lemma CollapseIdempotent(s: string)
    ensures CollapseWhitespace(CollapseWhitespace(s)) == CollapseWhitespace(s)
  {
    SplitJoin(Split(s));
  }

  /** str.replace never adds characters other than those of the replacement. */
  lemma {:induction false} ReplaceChars(s: string, pat: string, rep: string, c: char)
    requires |pat| > 0
    requires c !in s && c !in rep
    ensures c !in ReplaceAll(s, pat, rep)
    decreases |s|
  {
    if |s| < |pat| {
    } else if s[..|pat|] == pat {
      assert forall k :: 0 <= k < |s[|pat|..]| ==> s[|pat|..][k] == s[|pat| + k];
      ReplaceChars(s[|pat|..], pat, rep, c);
    } else {
      assert forall k :: 0 <= k < |s[1..]| ==> s[1..][k] == s[1 + k];
      ReplaceChars(s[1..], pat, rep, c);
    }
  }

  /** Replacing a one-character pattern removes every occurrence of that character. */
  lemma {:induction false} ReplaceRemovesChar(s: string, c: char, rep: string)
    requires c !in rep
    ensures c !in ReplaceAll(s, [c], rep)
    decreases |s|
  {
    if |s| >= 1 {
      if s[..1] == [c] {
        ReplaceRemovesChar(s[1..], c, rep);
      } else {
        assert s[0] != c;
        ReplaceRemovesChar(s[1..], c, rep);
      }
    }
  }

  /** After the quote replacements no double quote and no quotation mark is left. */
  lemma NoQuoteSurvives(s: string)
    ensures var r := NormaliseQuotes(s);
      '"' !in r && forall q :: q in CurlyQuotes ==> q !in r
  {
    var s1 := ReplaceAll(s, "\"", "'");
    ReplaceRemovesChar(s, '"', "'");
    var s2 := ReplaceAll(s1, [CurlyQuotes[0]], "'");
    ReplaceRemovesChar(s1, CurlyQuotes[0], "'");
    ReplaceChars(s1, [CurlyQuotes[0]], "'", '"');
    var s3 := ReplaceAll(s2, [CurlyQuotes[1]], "'");
    ReplaceRemovesChar(s2, CurlyQuotes[1], "'");
    ReplaceChars(s2, [CurlyQuotes[1]], "'", '"');
    ReplaceChars(s2, [CurlyQuotes[1]], "'", CurlyQuotes[0]);
    var s4 := ReplaceAll(s3, [CurlyQuotes[2]], "'");
    ReplaceRemovesChar(s3, CurlyQuotes[2], "'");
    ReplaceChars(s3, [CurlyQuotes[2]], "'", '"');
    ReplaceChars(s3, [CurlyQuotes[2]], "'", CurlyQuotes[0]);
    ReplaceChars(s3, [CurlyQuotes[2]], "'", CurlyQuotes[1]);
    ReplaceRemovesChar(s4, CurlyQuotes[3], "'");
    ReplaceChars(s4, [CurlyQuotes[3]], "'", '"');
    ReplaceChars(s4, [CurlyQuotes[3]], "'", CurlyQuotes[0]);
    ReplaceChars(s4, [CurlyQuotes[3]], "'", CurlyQuotes[1]);
    ReplaceChars(s4, [CurlyQuotes[3]], "'", CurlyQuotes[2]);
  }

  // ---------------------------------------------------------------------------
  // split() keeps every word

  /** The characters of a list of words, concatenated. */
  function Concat(ws: seq<string>): string
  {
    if ws == [] then [] else ws[0] + Concat(ws[1..])
  }

  /** s with every whitespace character removed, the rest in order. */
  function NonSpace(s: string): string
  {
    if s == [] then [] else (if IsSpace(s[0]) then [] else [s[0]]) + NonSpace(s[1..])
  }

  lemma {:induction false} NonSpaceAppend(a: string, b: string)
    ensures NonSpace(a + b) == NonSpace(a) + NonSpace(b)
    decreases |a|
  {
    if a != [] {
      assert (a + b)[1..] == a[1..] + b;
      NonSpaceAppend(a[1..], b);
    } else {
      assert a + b == b;
    }
  }

  lemma {:induction false} NonSpaceWord(w: string)
    requires forall i :: 0 <= i < |w| ==> !IsSpace(w[i])
    ensures NonSpace(w) == w
    decreases |w|
  {
    if w != [] {
      NonSpaceWord(w[1..]);
    }
  }

  /** split() breaks at every whitespace character: the text before it and the
    * text after it split independently. */
  lemma {:induction false} SplitAtSpace(a: string, c: char, b: string)
    requires IsSpace(c)
    ensures Split(a + [c] + b) == Split(a) + Split(b)
    decreases |a|
  {
    if a == [] {
      assert a + [c] + b == [c] + b;
      SplitSpaceHead(c, b);
    } else if IsSpace(a[0]) {
      assert a + [c] + b == [a[0]] + (a[1..] + [c] + b);
      SplitSpaceHead(a[0], a[1..] + [c] + b);
      SplitAtSpace(a[1..], c, b);
    } else {
      var m := WordLength(a);
      var t := a[m..] + [c] + b;
      assert a + [c] + b == a[..m] + t;
      assert IsSpace(t[0]) by {
        if m < |a| { assert t[0] == a[m]; } else { assert t[0] == c; }
      }
      SplitWordHead(a[..m], t);
      SplitAtSpace(a[m..], c, b);
    }
  }

  lemma SplitSpaceHead(c: char, t: string)
    requires IsSpace(c)
    ensures Split([c] + t) == Split(t)
  {
    assert ([c] + t)[1..] == t;
  }

  lemma SplitWordHead(w: string, t: string)
    requires IsWord(w) && t != [] && IsSpace(t[0])
    ensures Split(w + t) == [w] + Split(t)
  {
    WordLengthPrefix(w, t);
    assert (w + t)[..|w|] == w;
    assert (w + t)[|w|..] == t;
  }

  /** split() loses nothing but whitespace: its tokens, concatenated in order,
    * are exactly the non-whitespace characters of the input. */
  lemma {:induction false} SplitKeepsText(s: string)
    ensures Concat(Split(s)) == NonSpace(s)
    decreases |s|
  {
    if s == [] {
    } else if IsSpace(s[0]) {
      SplitKeepsText(s[1..]);
    } else {
      var n := WordLength(s);
      SplitKeepsText(s[n..]);
      assert Split(s) == [s[..n]] + Split(s[n..]);
      assert s == s[..n] + s[n..];
      NonSpaceAppend(s[..n], s[n..]);
      NonSpaceWord(s[..n]);
    }
  }

  // ---------------------------------------------------------------------------
  // The quote literals as written never match

  /** NFKD decomposes U+00C4 into A and a combining diaeresis, so its output
    * never holds that character. */
  ghost predicate DecomposesAUmlaut(u: Unicode)
  {
    forall t :: '\U{C4}' !in u.nfkd(t)
  }

  /** A pattern whose second character is U+00C4 never matches a text without it. */
  lemma {:induction false} InertPattern(s: string, pat: string, rep: string)
    requires |pat| > 1 && pat[1] == '\U{C4}' && '\U{C4}' !in s
    ensures ReplaceAll(s, pat, rep) == s
    decreases |s|
  {
    if |s| >= |pat| {
      assert s[..|pat|][1] == s[1] != pat[1];
      assert '\U{C4}' !in s[1..] by {
        assert forall k :: 0 <= k < |s[1..]| ==> s[1..][k] == s[k + 1];
      }
      InertPattern(s[1..], pat, rep);
      assert [s[0]] + s[1..] == s;
    }
  }

  /** On text without U+00C4 the chain as written only replaces the double quote. */
  lemma AsWrittenReplacesOnlyDoubleQuote(s: string)
    requires '\U{C4}' !in s
    ensures NormaliseQuotesAsWritten(s) == ReplaceAll(s, "\"", "'")
  {
    var s1 := ReplaceAll(s, "\"", "'");
    ReplaceChars(s, "\"", "'", '\U{C4}');
    InertPattern(s1, LeftDoubleMojibake, "'");
    InertPattern(s1, RightDoubleMojibake, "'");
    InertPattern(s1, LeftSingleMojibake, "'");
    InertPattern(s1, RightSingleMojibake, "'");
  }

  /** So after NFKD the four curly-quote replacements of the cleaner as written do
    * nothing: only the double quote is replaced. */
  lemma AsWrittenCleanerIgnoresCurlyQuotes(u: Unicode, t: string)
    requires DecomposesAUmlaut(u)
    ensures PreparedAsWritten(u, t) == ReplaceAll(KeepPrintable(u, u.nfkd(t)), "\"", "'")
  {
    var kept := KeepPrintable(u, u.nfkd(t));
    assert '\U{C4}' !in u.nfkd(t);
    AsWrittenReplacesOnlyDoubleQuote(kept);
  }

  /** The filter keeps the surviving characters in input order: filtering a
    * concatenation filters each part and concatenates the results. */
  lemma {:induction false} KeepPrintableAppend(u: Unicode, a: string, b: string)
    ensures KeepPrintable(u, a + b) == KeepPrintable(u, a) + KeepPrintable(u, b)
    decreases |a|
  {
    if a == [] {
      assert a + b == b;
    } else {
      assert (a + b)[1..] == a[1..] + b;
      KeepPrintableAppend(u, a[1..], b);
    }
  }

  lemma {:induction false} KeepPrintableAll(u: Unicode, s: string)
    requires forall i :: 0 <= i < |s| ==> Kept(u, s[i])
    ensures KeepPrintable(u, s) == s
    decreases |s|
  {
    if s != [] {
      KeepPrintableAll(u, s[1..]);
      assert [s[0]] + s[1..] == s;
    }
  }

  lemma {:induction false} ReplaceAbsent(s: string, c: char, rep: string)
    requires c !in s
    ensures ReplaceAll(s, [c], rep) == s
    decreases |s|
  {
    if s != [] {
      assert s[..1] == [s[0]] != [c];
      assert c !in s[1..];
      ReplaceAbsent(s[1..], c, rep);
      assert [s[0]] + s[1..] == s;
    }
  }

  lemma ReplaceFirst(c: char, b: string, rep: string)
    requires c !in b
    ensures ReplaceAll([c] + b, [c], rep) == rep + b
  {
    var s := [c] + b;
    assert s[..1] == [c] && s[1..] == b;
    ReplaceAbsent(b, c, rep);
  }

  lemma {:induction false} ReplaceLast(a: string, c: char, rep: string)
    requires c !in a
    ensures ReplaceAll(a + [c], [c], rep) == a + rep
    decreases |a|
  {
    var s := a + [c];
    if a == [] {
      assert s == [c] + [];
      ReplaceFirst(c, [], rep);
    } else {
      assert s[..1] == [a[0]] != [c];
      assert s[1..] == a[1..] + [c];
      assert c !in a[1..];
      ReplaceLast(a[1..], c, rep);
      assert [a[0]] + (a[1..] + rep) == a + rep;
    }
  }

  /** The sample review "\U{201C}ok\U{201D}" passes the category filter whole. */
  lemma QuotedSampleKept(u: Unicode)
    requires !u.inCategoryC('\U{201C}') && !u.inCategoryC('\U{201D}')
    requires !u.inCategoryC('o') && !u.inCategoryC('k')
    ensures KeepPrintable(u, "\U{201C}ok\U{201D}") == "\U{201C}ok\U{201D}"
  {
    KeepPrintableAll(u, "\U{201C}ok\U{201D}");
  }

  /** The replacements as written leave the sample unchanged. */
  lemma QuotedSampleAsWritten()
    ensures NormaliseQuotesAsWritten("\U{201C}ok\U{201D}") == "\U{201C}ok\U{201D}"
  {
    AsWrittenReplacesOnlyDoubleQuote("\U{201C}ok\U{201D}");
    ReplaceAbsent("\U{201C}ok\U{201D}", '"', "'");
  }

  /** The first two intended replacements turn the opening mark of the sample into an apostrophe. */
  lemma QuotedSampleOpening()
    ensures ReplaceAll(ReplaceAll("\U{201C}ok\U{201D}", "\"", "'"), [CurlyQuotes[0]], "'") == "'ok" + [CurlyQuotes[1]]
  {
    ReplaceAbsent("\U{201C}ok\U{201D}", '"', "'");
    assert "\U{201C}ok\U{201D}" == [CurlyQuotes[0]] + "ok\U{201D}";
    ReplaceFirst(CurlyQuotes[0], "ok\U{201D}", "'");
    assert "'" + "ok\U{201D}" == "'ok" + [CurlyQuotes[1]];
  }

  /** The intended replacements turn both quotation marks of the sample into apostrophes. */
  lemma QuotedSampleIntended()
    ensures NormaliseQuotes("\U{201C}ok\U{201D}") == "'ok'"
  {
    QuotedSampleOpening();
    ReplaceLast("'ok", CurlyQuotes[1], "'");
    assert "'ok" + "'" == "'ok'";
    ReplaceAbsent("'ok'", CurlyQuotes[2], "'");
    ReplaceAbsent("'ok'", CurlyQuotes[3], "'");
  }

  /** A review quoted with U+201C and U+201D, which NFKD leaves alone and which are
    * not of category C: the cleaner as written passes the quotation marks through. */
  lemma CurlyQuotesSurviveAsWritten(u: Unicode)
    requires u.nfkd("\U{201C}ok\U{201D}") == "\U{201C}ok\U{201D}"
    requires !u.inCategoryC('\U{201C}') && !u.inCategoryC('\U{201D}')
    requires !u.inCategoryC('o') && !u.inCategoryC('k')
    ensures PreparedAsWritten(u, "\U{201C}ok\U{201D}") == "\U{201C}ok\U{201D}"
  {
    QuotedSampleKept(u);
    QuotedSampleAsWritten();
  }

  /** The same review cleaned with the intended replacements: both quotation marks
    * become apostrophes. */
  lemma CurlyQuotesReplacedAsIntended(u: Unicode)
    requires u.nfkd("\U{201C}ok\U{201D}") == "\U{201C}ok\U{201D}"
    requires !u.inCategoryC('\U{201C}') && !u.inCategoryC('\U{201D}')
    requires !u.inCategoryC('o') && !u.inCategoryC('k')
    ensures Prepared(u, "\U{201C}ok\U{201D}") == "'ok'"
  {
    QuotedSampleKept(u);
    QuotedSampleIntended();
  }
}
