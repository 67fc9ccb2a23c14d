/**
 * Headline normalisation (`clean_text` in src/nlp/topic_modeling.py).
 * Each regular-expression step of the source is one left-to-right
 * scanning function over the text:
 *   lower()  ->  Lower
 *   re.sub(r"http\S+", "", .)  ->  StripUrls
 *   re.sub(r"[^a-z\s]", "", .)  ->  KeepAllowed
 *   re.sub(r"\s+", " ", .)  ->  Squeeze
 *   strip()  ->  Strip
 */
module TextCleaning {
  import opened Sequences

  /** Python's `\s` and `str.isspace` on `str`: the Unicode whitespace characters. */
  predicate IsSpace(c: char)
  {
    var n := c as int;
    if n <= 32 then 9 <= n <= 13 || 28 <= n
    else if n < 0x85 then false
    else (n == 0x85 || n == 0xA0 || n == 0x1680 || (0x2000 <= n <= 0x200A)
          || n == 0x2028 || n == 0x2029 || n == 0x202F || n == 0x205F || n == 0x3000)
  }

  /** The class `a-z` of the source's second pattern. */
  predicate IsLetter(c: char)
  {
    'a' <= c <= 'z'
  }

  function LowerChar(c: char): char
  {
    if 'A' <= c <= 'Z' then (c as int + 32) as char else c
  }

  function Lower(s: string): string
  {
    if s == [] then [] else [LowerChar(s[0])] + Lower(s[1..])
  }

  /** `http` followed by at least one non-whitespace character starts here. */
  predicate StartsUrl(s: string)
  {
    |s| >= 5 && s[0] == 'h' && s[1] == 't' && s[2] == 't' && s[3] == 'p' && !IsSpace(s[4])
  }

  /** No occurrence of the pattern `http\S+` anywhere in `s`. */
  predicate NoUrl(s: string)
  {
    forall i :: 0 <= i < |s| ==> !StartsUrl(s[i..])
  }

  /** Drops the leading run of non-whitespace characters. */
  function SkipToSpace(s: string): (r: string)
    ensures |r| <= |s|
  {
    if s == [] || IsSpace(s[0]) then s else SkipToSpace(s[1..])
  }

  /** Drops the leading run of whitespace characters (also `lstrip`). */
  function SkipSpaces(s: string): (r: string)
    ensures |r| <= |s|
  {
    if s == [] || !IsSpace(s[0]) then s else SkipSpaces(s[1..])
  }

  /**
   * `re.sub(r"http\S+", "", s)`: scanning from the left, every match of
   * `http` followed by a maximal non-empty run of non-whitespace is
   * deleted, and scanning resumes after it.
   */
  function StripUrls(s: string): string
    decreases |s|
  {
    if s == [] then []
    else if StartsUrl(s) then StripUrls(SkipToSpace(s[4..]))
    else [s[0]] + StripUrls(s[1..])
  }

  /** `re.sub(r"[^a-z\s]", "", s)`. */
  function KeepAllowed(s: string): string
  {
    if s == [] then []
    else (if IsLetter(s[0]) || IsSpace(s[0]) then [s[0]] else []) + KeepAllowed(s[1..])
  }

  /** `re.sub(r"\s+", " ", s)`: every maximal whitespace run becomes one blank. */
  function Squeeze(s: string): string
    decreases |s|
  {
    if s == [] then []
    else if IsSpace(s[0]) then [' '] + Squeeze(SkipSpaces(s[1..]))
    else [s[0]] + Squeeze(s[1..])
  }

  /** `rstrip()`: drops the trailing run of whitespace. */
  function StripRight(s: string): string
  {
    if s != [] && IsSpace(s[|s| - 1]) then StripRight(s[..|s| - 1]) else s
  }

  /** `strip()`. */
  function Strip(s: string): string
  {
    StripRight(SkipSpaces(s))
  }

  /** `clean_text(text)`. */
  function CleanText(text: string): string
  {
    Strip(Squeeze(KeepAllowed(StripUrls(Lower(text)))))
  }

  // ---------------------------------------------------------------
  // Vocabulary for the properties
  // ---------------------------------------------------------------

  /** No two neighbouring blanks. */
  ghost predicate NoDoubleBlank(s: string)
  {
    forall i, j :: 0 <= i < j < |s| && j == i + 1 ==> s[i] != ' ' || s[j] != ' '
  }

  /** Lowercase letters separated by single blanks, nothing at either end. */
  ghost predicate Canonical(s: string)
  {
    && (forall i :: 0 <= i < |s| ==> IsLetter(s[i]) || s[i] == ' ')
    && (|s| > 0 ==> s[0] != ' ' && s[|s| - 1] != ' ')
    && NoDoubleBlank(s)
  }

  /** The letters `a-z` of `s`, in order. */
  function Letters(s: string): string
  {
    if s == [] then [] else (if IsLetter(s[0]) then [s[0]] else []) + Letters(s[1..])
  }

  /** `s` with every blank deleted. */
  function RemoveBlanks(s: string): string
  {
    if s == [] then [] else (if s[0] == ' ' then [] else [s[0]]) + RemoveBlanks(s[1..])
  }

  // ---------------------------------------------------------------
  // What the skipping steps remove
  // ---------------------------------------------------------------

  /** SkipToSpace removes a prefix and stops at whitespace or at the end. */
  lemma {:induction false} SkipToSpaceFacts(s: string)
    ensures SkipToSpace(s) == s[|s| - |SkipToSpace(s)|..]
    ensures SkipToSpace(s) == [] || IsSpace(SkipToSpace(s)[0])
  {
    if s != [] && !IsSpace(s[0]) {
      SkipToSpaceFacts(s[1..]);
    }
  }

  /** SkipSpaces removes a prefix of whitespace only and stops at a non-whitespace character. */
  lemma {:induction false} SkipSpacesFacts(s: string)
    ensures SkipSpaces(s) == s[|s| - |SkipSpaces(s)|..]
    ensures SkipSpaces(s) == [] || !IsSpace(SkipSpaces(s)[0])
    ensures forall i :: 0 <= i < |s| - |SkipSpaces(s)| ==> IsSpace(s[i])
  {
    if s != [] && IsSpace(s[0]) {
      SkipSpacesFacts(s[1..]);
    }
  }

  /** StripRight removes a suffix of whitespace only and stops at a non-whitespace character. */
  lemma {:induction false} StripRightFacts(s: string)
    ensures |StripRight(s)| <= |s| && StripRight(s) == s[..|StripRight(s)|]
    ensures StripRight(s) == [] || !IsSpace(StripRight(s)[|StripRight(s)| - 1])
    ensures forall i :: |StripRight(s)| <= i < |s| ==> IsSpace(s[i])
  {
    if s != [] && IsSpace(s[|s| - 1]) {
      StripRightFacts(s[..|s| - 1]);
    }
  }

  // ---------------------------------------------------------------
  // The URL step
  // ---------------------------------------------------------------

  /** Right after a deleted URL the output is empty or resumes at a whitespace character. */
  lemma UrlDeletionResumesAtSpace(s: string)
    requires StartsUrl(s)
    ensures StripUrls(s) == [] || IsSpace(StripUrls(s)[0])
  {
    var t := SkipToSpace(s[4..]);
    SkipToSpaceFacts(s[4..]);
    if t != [] {
      assert !StartsUrl(t);
      assert StripUrls(t) == [t[0]] + StripUrls(t[1..]);
    }
  }

  /** A prefix of StripUrls(s) that holds no whitespace was copied from s unchanged. */
  lemma {:induction false} SpaceFreePrefixKept(s: string, k: nat)
    requires k <= |StripUrls(s)|
    requires forall i :: 0 <= i < k ==> !IsSpace(StripUrls(s)[i])
    ensures k <= |s| && StripUrls(s)[..k] == s[..k]
    decreases |s|
  {
    if s == [] || k == 0 {
    } else if StartsUrl(s) {
      UrlDeletionResumesAtSpace(s);
      assert false;
    } else {
      var r := StripUrls(s[1..]);
      assert StripUrls(s) == [s[0]] + r;
      assert forall i :: 0 <= i < k - 1 ==> r[i] == StripUrls(s)[i + 1];
      SpaceFreePrefixKept(s[1..], k - 1);
      assert StripUrls(s)[..k] == [s[0]] + r[..k - 1];
    }
  }

  /** No output of the URL step contains the pattern again. */
  lemma {:induction false} StripUrlsLeavesNoUrl(s: string)
    ensures NoUrl(StripUrls(s))
    decreases |s|
  {
    if s == [] {
    } else if StartsUrl(s) {
      StripUrlsLeavesNoUrl(SkipToSpace(s[4..]));
    } else {
      var r := StripUrls(s[1..]);
      StripUrlsLeavesNoUrl(s[1..]);
      var out := [s[0]] + r;
      assert StripUrls(s) == out;
      forall i | 0 <= i < |out| ensures !StartsUrl(out[i..]) {
        if i == 0 {
          if StartsUrl(out) {
            assert forall j :: 0 <= j < 4 ==> r[j] == out[j + 1];
            SpaceFreePrefixKept(s[1..], 4);
          }
        } else {
          assert out[i..] == r[i - 1..];
        }
      }
    }
  }

  /** Text without the pattern passes through the URL step unchanged. */
  lemma {:induction false} StripUrlsKeepsPlainText(s: string)
    requires NoUrl(s)
    ensures StripUrls(s) == s
    decreases |s|
  {
    if s != [] {
      assert s[0..] == s;
      assert forall i :: 0 <= i < |s| - 1 ==> s[1..][i..] == s[i + 1..];
      StripUrlsKeepsPlainText(s[1..]);
    }
  }

  // ---------------------------------------------------------------
  // Letters through the pipeline
  // ---------------------------------------------------------------

  lemma {:induction false} LettersAppend(a: string, b: string)
    ensures Letters(a + b) == Letters(a) + Letters(b)
  {
    if a == [] {
      assert a + b == b;
    } else {
      var h := if IsLetter(a[0]) then [a[0]] else [];
      assert (a + b)[0] == a[0] && (a + b)[1..] == a[1..] + b;
      LettersAppend(a[1..], b);
      calc {
        Letters(a + b);
        h + Letters(a[1..] + b);
        h + (Letters(a[1..]) + Letters(b));
        (h + Letters(a[1..])) + Letters(b);
      }
    }
  }

  lemma {:induction false} LettersOfBlankRun(s: string)
    requires forall i :: 0 <= i < |s| ==> IsSpace(s[i])
    ensures Letters(s) == []
  {
    if s != [] {
      LettersOfBlankRun(s[1..]);
    }
  }

  /** The URL step only deletes: its letters are a subsequence of the input's. */
  lemma {:induction false} StripUrlsLettersSubseq(s: string)
    ensures IsSubseq(Letters(StripUrls(s)), Letters(s))
    decreases |s|
  {
    if s == [] {
    } else if StartsUrl(s) {
      var t := SkipToSpace(s[4..]);
      SkipToSpaceFacts(s[4..]);
      StripUrlsLettersSubseq(t);
      var p := s[..|s| - |t|];
      assert s == p + t;
      LettersAppend(p, t);
      SubseqAfterPrefix(Letters(StripUrls(t)), Letters(p), Letters(t));
    } else {
      StripUrlsLettersSubseq(s[1..]);
      var x, y := Letters(StripUrls(s[1..])), Letters(s[1..]);
      assert StripUrls(s) == [s[0]] + StripUrls(s[1..]);
      if IsLetter(s[0]) {
        assert Letters(StripUrls(s)) == [s[0]] + x;
        assert Letters(s) == [s[0]] + y;
        assert ([s[0]] + x)[1..] == x && ([s[0]] + y)[1..] == y;
      } else {
        assert Letters(StripUrls(s)) == x;
        assert Letters(s) == y;
      }
    }
  }

  lemma {:induction false} KeepAllowedLetters(s: string)
    ensures Letters(KeepAllowed(s)) == Letters(s)
  {
    if s != [] {
      KeepAllowedLetters(s[1..]);
      LettersAppend(if IsLetter(s[0]) || IsSpace(s[0]) then [s[0]] else [], KeepAllowed(s[1..]));
    }
  }

  lemma {:induction false} SkipSpacesLetters(s: string)
    ensures Letters(SkipSpaces(s)) == Letters(s)
  {
    var r := SkipSpaces(s);
    SkipSpacesFacts(s);
    var p := s[..|s| - |r|];
    assert s == p + r;
    LettersAppend(p, r);
    LettersOfBlankRun(p);
  }

  lemma {:induction false} SqueezeLetters(s: string)
    ensures Letters(Squeeze(s)) == Letters(s)
    decreases |s|
  {
    if s == [] {
    } else if IsSpace(s[0]) {
      var t := SkipSpaces(s[1..]);
      SqueezeLetters(t);
      SkipSpacesLetters(s[1..]);
      LettersAppend([' '], Squeeze(t));
    } else {
      SqueezeLetters(s[1..]);
      LettersAppend([s[0]], Squeeze(s[1..]));
    }
  }

  lemma StripLetters(s: string)
    ensures Letters(Strip(s)) == Letters(s)
  {
    var l := SkipSpaces(s);
    SkipSpacesLetters(s);
    var r := StripRight(l);
    StripRightFacts(l);
    assert l == r + l[|r|..];
    LettersAppend(r, l[|r|..]);
    LettersOfBlankRun(l[|r|..]);
  }

  /** The letters of the cleaned text are exactly the letters that survive the URL step. */
  lemma CleanTextLetters(text: string)
    ensures Letters(CleanText(text)) == Letters(StripUrls(Lower(text)))
  {
    var u := StripUrls(Lower(text));
    KeepAllowedLetters(u);
    SqueezeLetters(KeepAllowed(u));
    StripLetters(Squeeze(KeepAllowed(u)));
  }

  // ---------------------------------------------------------------
  // Shape of the output
  // ---------------------------------------------------------------

  predicate Allowed(s: string)
  {
    forall i :: 0 <= i < |s| ==> IsLetter(s[i]) || IsSpace(s[i])
  }

  lemma {:induction false} KeepAllowedAllowed(s: string)
    ensures Allowed(KeepAllowed(s))
  {
    if s != [] {
      KeepAllowedAllowed(s[1..]);
    }
  }

  ghost predicate SingleSpaced(s: string)
  {
    && (forall i :: 0 <= i < |s| ==> IsLetter(s[i]) || s[i] == ' ')
    && NoDoubleBlank(s)
  }

  lemma {:induction false} SqueezeShape(s: string)
    requires Allowed(s)
    ensures SingleSpaced(Squeeze(s))
    ensures |Squeeze(s)| > 0 && !IsSpace(s[0]) ==> Squeeze(s)[0] == s[0]
    decreases |s|
  {
    if s == [] {
    } else if IsSpace(s[0]) {
      var t := SkipSpaces(s[1..]);
      SkipSpacesFacts(s[1..]);
      assert Allowed(t) by {
        assert forall i :: 0 <= i < |t| ==> t[i] == s[1..][|s| - 1 - |t| + i];
      }
      SqueezeShape(t);
      var q := Squeeze(t);
      assert Squeeze(s) == [' '] + q;
      assert q != [] ==> q[0] == t[0] && IsLetter(q[0]);
    } else {
      SqueezeShape(s[1..]);
      assert IsLetter(s[0]);
    }
  }

  lemma InfixSingleSpaced(s: string, a: nat, b: nat)
    requires SingleSpaced(s) && a <= b <= |s|
    ensures SingleSpaced(s[a..b])
  {
    var t := s[a..b];
    assert forall i :: 0 <= i < |t| ==> t[i] == s[a + i];
  }

  lemma StripShape(s: string)
    requires SingleSpaced(s)
    ensures Canonical(Strip(s))
  {
    var l := SkipSpaces(s);
    SkipSpacesFacts(s);
    var r := StripRight(l);
    StripRightFacts(l);
    var k := |s| - |l|;
    assert r == s[k..k + |r|];
    InfixSingleSpaced(s, k, k + |r|);
    assert r != [] ==> r[0] == l[0] && !IsSpace(r[0]);
  }

  // ---------------------------------------------------------------
  // The properties of clean_text
  // ---------------------------------------------------------------

  /**
   * Every character of the cleaned text is a letter `a-z` or a blank;
   * there is no blank at either end and never two blanks in a row.
   */
  lemma CleanTextCanonical(text: string)
    ensures Canonical(CleanText(text))
  {
    var k := KeepAllowed(StripUrls(Lower(text)));
    KeepAllowedAllowed(StripUrls(Lower(text)));
    SqueezeShape(k);
    StripShape(Squeeze(k));
  }

  lemma {:induction false} RemoveBlanksIsLetters(s: string)
    requires forall i :: 0 <= i < |s| ==> IsLetter(s[i]) || s[i] == ' '
    ensures RemoveBlanks(s) == Letters(s)
  {
    if s != [] {
      RemoveBlanksIsLetters(s[1..]);
    }
  }

  /**
   * Deleting the blanks of the cleaned text gives a subsequence of the
   * letters of the lowercased input: no letter is invented or reordered.
   */
  lemma CleanTextKeepsLetterOrder(text: string)
    ensures IsSubseq(RemoveBlanks(CleanText(text)), Letters(Lower(text)))
  {
    CleanTextCanonical(text);
    RemoveBlanksIsLetters(CleanText(text));
    CleanTextLetters(text);
    StripUrlsLettersSubseq(Lower(text));
  }

  /** The cleaned text is empty exactly when no letter survives the URL step. */
  lemma CleanTextEmptyIff(text: string)
    ensures CleanText(text) == [] <==> Letters(StripUrls(Lower(text))) == []
  {
    var c := CleanText(text);
    CleanTextCanonical(text);
    CleanTextLetters(text);
    if c != [] {
      assert IsLetter(c[0]);
      assert Letters(c) == [c[0]] + Letters(c[1..]);
    }
  }

  lemma {:induction false} LowerOfBlanks(s: string)
    requires forall i :: 0 <= i < |s| ==> IsSpace(s[i])
    ensures forall i :: 0 <= i < |Lower(s)| ==> IsSpace(Lower(s)[i])
    ensures |Lower(s)| == |s|
  {
    if s != [] {
      LowerOfBlanks(s[1..]);
      assert Lower(s) == [LowerChar(s[0])] + Lower(s[1..]);
    }
  }

  /** Empty or whitespace-only text cleans to the empty string. */
  lemma BlankTextCleansToEmpty(text: string)
    requires forall i :: 0 <= i < |text| ==> IsSpace(text[i])
    ensures CleanText(text) == []
  {
    LowerOfBlanks(text);
    LettersOfBlankRun(Lower(text));
    StripUrlsLettersSubseq(Lower(text));
    SubseqOfEmpty(Letters(StripUrls(Lower(text))));
    CleanTextEmptyIff(text);
  }

  lemma {:induction false} LowerKeepsLowercase(s: string)
    requires forall i :: 0 <= i < |s| ==> !('A' <= s[i] <= 'Z')
    ensures Lower(s) == s
  {
    if s != [] {
      LowerKeepsLowercase(s[1..]);
    }
  }

  lemma {:induction false} KeepAllowedKeepsAllowed(s: string)
    requires Allowed(s)
    ensures KeepAllowed(s) == s
  {
    if s != [] {
      KeepAllowedKeepsAllowed(s[1..]);
    }
  }

  lemma {:induction false} SqueezeKeepsSingleSpaced(s: string)
    requires SingleSpaced(s)
    ensures Squeeze(s) == s
    decreases |s|
  {
    if s != [] {
      assert SingleSpaced(s[1..]);
      if s[0] == ' ' {
        assert s[1..] == [] || !IsSpace(s[1]);
        assert SkipSpaces(s[1..]) == s[1..];
      }
      SqueezeKeepsSingleSpaced(s[1..]);
    }
  }

  /** Once the URL step has produced canonical text, the remaining steps keep it. */
  lemma CleanAfterUrlStep(text: string)
    requires Canonical(StripUrls(Lower(text)))
    ensures CleanText(text) == StripUrls(Lower(text))
  {
    var u := StripUrls(Lower(text));
    assert Allowed(u);
    KeepAllowedKeepsAllowed(u);
    SqueezeStripKeepCanonical(u);
  }

  lemma SqueezeStripKeepCanonical(u: string)
    requires Canonical(u)
    ensures Strip(Squeeze(u)) == u
  {
    assert SingleSpaced(u);
    SqueezeKeepsSingleSpaced(u);
    assert u == [] || !IsSpace(u[0]);
    assert SkipSpaces(u) == u;
    assert u == [] || !IsSpace(u[|u| - 1]);
    assert StripRight(u) == u;
  }

  /**
   * Text that is already lowercase words separated by single blanks, and
   * holds no `http` followed by a non-blank, is returned unchanged.
   */
  lemma CleanTextKeepsCanonical(text: string)
    requires Canonical(text) && NoUrl(text)
    ensures CleanText(text) == text
  {
    LowerKeepsLowercase(text);
    StripUrlsKeepsPlainText(text);
    CleanAfterUrlStep(text);
  }

  /** A whole word that starts with `http` and one more character vanishes in the URL step. */
  lemma {:induction false} UrlWordVanishes(w: string)
    requires StartsUrl(w)
    requires forall i :: 0 <= i < |w| ==> !IsSpace(w[i])
    ensures StripUrls(w) == []
  {
    NoSpaceSkipsAll(w[4..]);
  }

  lemma {:induction false} NoSpaceSkipsAll(s: string)
    requires forall i :: 0 <= i < |s| ==> !IsSpace(s[i])
    ensures SkipToSpace(s) == []
  {
    if s != [] {
      NoSpaceSkipsAll(s[1..]);
    }
  }

  /** The URL pattern matches anywhere, also inside a word, and after lowercasing. */
  lemma UrlInsideWordIsDeleted()
    ensures CleanText("xHTTPy") == "x"
  {
    var t := "xhttpy";
    LowercaseExample();
    assert !StartsUrl(t) && t[1..] == "httpy";
    UrlWordVanishes("httpy");
    assert StripUrls(t) == "x";
    CleanAfterUrlStep("xHTTPy");
  }

  lemma LowercaseExample()
    ensures Lower("xHTTPy") == "xhttpy"
  {
    var s := "xHTTPy";
    assert s[5..][1..] == [] && Lower(s[5..]) == "y";
    assert s[4..][1..] == s[5..] && Lower(s[4..]) == "py";
    assert s[3..][1..] == s[4..] && Lower(s[3..]) == "tpy";
    assert s[2..][1..] == s[3..] && Lower(s[2..]) == "ttpy";
    assert s[1..][1..] == s[2..] && Lower(s[1..]) == "httpy";
  }

  /** A bare `http` at the end is not followed by a non-blank and is kept. */
  lemma TrailingHttpIsKept()
    ensures CleanText("see http") == "see http"
  {
    CleanTextKeepsCanonical("see http");
  }

  /** Deleting the dot creates a new `http` match. */
  lemma DotRemovalJoinsUrl()
    ensures CleanText("h.ttpx") == "httpx"
  {
    LowercaseDotted();
    DottedTextHasNoUrl();
    DotIsDropped();
    JoinedWordIsCanonical();
    CleanAfterAllowedStep("h.ttpx");
  }

  lemma LowercaseDotted()
    ensures Lower("h.ttpx") == "h.ttpx"
  {
    LowerKeepsLowercase("h.ttpx");
  }

  lemma JoinedWordIsCanonical()
    ensures Canonical("httpx")
  {
  }

  /** Lowercase text without URLs whose allowed characters are canonical cleans to those characters. */
  lemma CleanAfterAllowedStep(text: string)
    requires Lower(text) == text && NoUrl(text)
    requires Canonical(KeepAllowed(text))
    ensures CleanText(text) == KeepAllowed(text)
  {
    StripUrlsKeepsPlainText(text);
    SqueezeStripKeepCanonical(KeepAllowed(text));
  }

  lemma DotIsDropped()
    ensures KeepAllowed("h.ttpx") == "httpx"
  {
    var u := "httpx";
    assert "h.ttpx" == "h." + u[1..];
    KeepAllowedKeepsAllowed(u[1..]);
  }

  lemma DottedTextHasNoUrl()
    ensures NoUrl("h.ttpx")
  {
    var t := "h.ttpx";
    assert forall i :: 0 <= i < |t| ==> t[i..][0] == t[i];
  }

  lemma BareUrlWordIsDeleted()
    ensures CleanText("httpx") == ""
  {
    LowerKeepsLowercase("httpx");
    UrlWordVanishes("httpx");
  }

  /**
   * clean_text is not idempotent: deleting punctuation can create a new
   * URL match, so a second pass can change the text again.
   */
  lemma CleanTextNotIdempotent()
    ensures exists text :: CleanText(CleanText(text)) != CleanText(text)
  {
    DotRemovalJoinsUrl();
    BareUrlWordIsDeleted();
    var text := "h.ttpx";
    assert CleanText(CleanText(text)) != CleanText(text);
  }
}
