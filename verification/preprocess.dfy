/**
  Text normalisation of loaded documents: four passes over each document's
  text (line endings, blank runs, unprintable characters, surrounding
  whitespace), metadata copied unchanged.
 */
module Preprocess {
  import opened Base

  /** The characters of the regular-expression class `[ \t]`. */
  predicate IsBlank(c: char)
  {
    c == ' ' || c == '\t'
  }

  /** The characters the class `[^\x20-\x7E\n]` does not remove. */
  predicate IsKept(c: char)
  {
    (' ' <= c <= '~') || c == '\n'
  }

  /** The characters Python's `str.strip()` removes (those for which `str.isspace()` holds). */
  predicate IsPyWhitespace(c: char)
  {
    || c == ' ' || c == '\t' || c == '\n' || c == '\r'
    || c == '\U{0B}' || c == '\U{0C}'
    || ('\U{1C}' <= c <= '\U{1F}')
    || c == '\U{85}' || c == '\U{A0}' || c == '\U{1680}'
    || ('\U{2000}' <= c <= '\U{200A}')
    || c == '\U{2028}' || c == '\U{2029}' || c == '\U{202F}' || c == '\U{205F}' || c == '\U{3000}'
  }

  /** `text.replace('\r\n', '\n')`: a left-to-right scan of non-overlapping occurrences. */
  function ReplaceCrLf(s: string): string
    decreases |s|
  {
    if |s| >= 2 && s[0] == '\r' && s[1] == '\n' then "\n" + ReplaceCrLf(s[2..])
    else if s == [] then []
    else [s[0]] + ReplaceCrLf(s[1..])
  }

  /** Text without carriage returns has nothing to replace. */
  lemma {:induction false} ReplaceCrLfIdentity(s: string)
    requires forall i :: 0 <= i < |s| ==> s[i] != '\r'
    ensures ReplaceCrLf(s) == s
    decreases |s|
  {
    if s != [] {
      assert forall i :: 0 <= i < |s[1..]| ==> s[1..][i] == s[i + 1];
      ReplaceCrLfIdentity(s[1..]);
    }
  }

  /** `text.replace('\r', '\n')`. */
  function ReplaceCr(s: string): string
  {
    seq(|s|, i requires 0 <= i < |s| => if s[i] == '\r' then '\n' else s[i])
  }

  /** No two adjacent characters of `s` are both spaces. */
  predicate NoDoubleSpace(s: string)
  {
    forall i :: 0 <= i < |s| - 1 ==> !(s[i] == ' ' && s[i + 1] == ' ')
  }

  /**
    `re.sub(r"[ \t]+", " ", text)`: every maximal run of blanks becomes one
    space. `inRun` says that the character before `s` was a blank of the
    current run.
   */
  function CollapseFrom(s: string, inRun: bool): string
    decreases |s|
  {
    if s == [] then [] else Emit(s[0], inRun) + CollapseFrom(s[1..], IsBlank(s[0]))
  }

  /** What the blank pass writes for one character: a blank opening a run becomes one space, a blank continuing one nothing. */
  function Emit(c: char, inRun: bool): string
  {
    if !IsBlank(c) then [c] else if inRun then "" else " "
  }

  function CollapseBlanks(s: string): string
  {
    CollapseFrom(s, false)
  }

  /**
    After the blank pass no tab and no doubled space is left, a run continued
    from before does not emit a second space, and printable input stays
    printable.
   */
  lemma {:induction false} CollapseShape(s: string, inRun: bool)
    ensures var r := CollapseFrom(s, inRun);
      && (forall i :: 0 <= i < |r| ==> r[i] != '\t')
      && NoDoubleSpace(r)
      && (inRun && r != [] ==> r[0] != ' ')
      && ((forall i :: 0 <= i < |s| ==> IsKept(s[i]) || s[i] == '\t') ==> forall i :: 0 <= i < |r| ==> IsKept(r[i]))
    decreases |s|
  {
    if s != [] {
      var e, rest := Emit(s[0], inRun), CollapseFrom(s[1..], IsBlank(s[0]));
      var r := e + rest;
      assert forall i :: 0 <= i < |s[1..]| ==> s[1..][i] == s[i + 1];
      CollapseShape(s[1..], IsBlank(s[0]));
      assert |e| <= 1 && forall i :: 0 <= i < |rest| ==> r[|e| + i] == rest[i];
      assert e == " " ==> rest == [] || rest[0] != ' ';
    }
  }

  /** Text without tabs or doubled spaces passes the blank pass unchanged. */
  lemma {:induction false} CollapseIdentity(s: string, inRun: bool)
    requires forall i :: 0 <= i < |s| ==> s[i] != '\t'
    requires NoDoubleSpace(s)
    requires inRun ==> s == [] || s[0] != ' '
    ensures CollapseFrom(s, inRun) == s
    decreases |s|
  {
    if s != [] {
      assert forall i :: 0 <= i < |s[1..]| ==> s[1..][i] == s[i + 1];
      if IsBlank(s[0]) {
        assert s[0] == ' ' && !inRun;
        CollapseIdentity(s[1..], true);
      } else {
        CollapseIdentity(s[1..], false);
      }
    }
  }

  /** Whether the blank pass is inside a run after reading `a`, having started with `inRun`. */
  function EndRun(a: string, inRun: bool): bool
  {
    if a == [] then inRun else IsBlank(a[|a| - 1])
  }

  /** The blank pass works piecewise: the second piece continues the run the first one ends in. */
  lemma {:induction false} CollapseAppend(a: string, b: string, inRun: bool)
    ensures CollapseFrom(a + b, inRun) == CollapseFrom(a, inRun) + CollapseFrom(b, EndRun(a, inRun))
    decreases |a|
  {
    if a != [] {
      var tail := a[1..];
      assert (a + b)[0] == a[0] && (a + b)[1..] == tail + b;
      CollapseAppend(tail, b, IsBlank(a[0]));
      assert EndRun(tail, IsBlank(a[0])) == EndRun(a, inRun);
    } else {
      assert a + b == b;
    }
  }

  /** `re.sub(r"[^\x20-\x7E\n]", "", text)`. */
  function DropUnprintable(s: string): string
    decreases |s|
  {
    if s == [] then []
    else if IsKept(s[0]) then [s[0]] + DropUnprintable(s[1..])
    else DropUnprintable(s[1..])
  }

  /** Only printable characters and newlines survive, and text made only of them is left alone. */
  lemma {:induction false} DropShape(s: string)
    ensures forall i :: 0 <= i < |DropUnprintable(s)| ==> IsKept(DropUnprintable(s)[i])
    ensures (forall i :: 0 <= i < |s| ==> IsKept(s[i])) ==> DropUnprintable(s) == s
    decreases |s|
  {
    if s != [] {
      assert forall i :: 0 <= i < |s[1..]| ==> s[1..][i] == s[i + 1];
      DropShape(s[1..]);
    }
  }

  /** The number of whitespace characters `s` starts with. */
  function LeadingWhitespace(s: string): (n: nat)
    ensures n <= |s|
    ensures forall i :: 0 <= i < n ==> IsPyWhitespace(s[i])
    ensures n < |s| ==> !IsPyWhitespace(s[n])
    decreases |s|
  {
    if s != [] && IsPyWhitespace(s[0]) then 1 + LeadingWhitespace(s[1..]) else 0
  }

  /** The number of whitespace characters `s` ends with. */
  function TrailingWhitespace(s: string): (n: nat)
    ensures n <= |s|
    ensures forall i :: |s| - n <= i < |s| ==> IsPyWhitespace(s[i])
    ensures n < |s| ==> !IsPyWhitespace(s[|s| - 1 - n])
    decreases |s|
  {
    if s != [] && IsPyWhitespace(s[|s| - 1]) then 1 + TrailingWhitespace(s[..|s| - 1]) else 0
  }

  /** `text.strip()`: `lstrip` followed by `rstrip`. */
  function Strip(s: string): string
  {
    var t := s[LeadingWhitespace(s)..];
    t[..|t| - TrailingWhitespace(t)]
  }

  /** Stripping yields a contiguous piece of the input without surrounding whitespace. */
  lemma StripSlice(s: string)
    ensures exists i, j :: 0 <= i <= j <= |s| && Strip(s) == s[i..j]
    ensures Strip(s) == [] || (!IsPyWhitespace(Strip(s)[0]) && !IsPyWhitespace(Strip(s)[|Strip(s)| - 1]))
  {
    var i := LeadingWhitespace(s);
    var t := s[i..];
    var n := TrailingWhitespace(t);
    assert Strip(s) == s[i..|s| - n];
  }

  /** Text that starts and ends with something other than whitespace is not stripped. */
  lemma StripIdentity(s: string)
    requires s == [] || (!IsPyWhitespace(s[0]) && !IsPyWhitespace(s[|s| - 1]))
    ensures Strip(s) == s
  {
  }

  /** One space on each side of an unpadded text is stripped away. */
  lemma StripOneSpaceEachSide(body: string)
    requires body != [] && !IsPyWhitespace(body[0]) && !IsPyWhitespace(body[|body| - 1])
    ensures Strip(" " + body + " ") == body
  {
    var s := " " + body + " ";
    var t := s[1..];
    assert t == body + " ";
    assert LeadingWhitespace(t) == 0;
    assert LeadingWhitespace(s) == 1;
    assert t[..|t| - 1] == body;
    assert TrailingWhitespace(t[..|t| - 1]) == 0;
    assert TrailingWhitespace(t) == 1;
  }

  /** A run of blanks collapses to one space, or to nothing when it continues a run. */
  lemma {:induction false} CollapseBlankRun(s: string, inRun: bool)
    requires s != [] && forall i :: 0 <= i < |s| ==> IsBlank(s[i])
    ensures CollapseFrom(s, inRun) == if inRun then "" else " "
    decreases |s|
  {
    if |s| > 1 {
      assert forall i :: 0 <= i < |s[1..]| ==> s[1..][i] == s[i + 1];
      CollapseBlankRun(s[1..], true);
    }
  }

  /** The four passes of `normalize_documents`, in the order the code applies them. */
  function NormalizeText(s: string): string
  {
    Strip(DropUnprintable(CollapseBlanks(ReplaceCr(ReplaceCrLf(s)))))
  }

  /** A text in the shape the normaliser aims for. */
  predicate IsNormal(s: string)
  {
    && (forall i :: 0 <= i < |s| ==> IsKept(s[i]))
    && NoDoubleSpace(s)
    && (s == [] || (s[0] != ' ' && s[0] != '\n' && s[|s| - 1] != ' ' && s[|s| - 1] != '\n'))
  }

  /** Text in normal form neither starts nor ends with whitespace, so `strip()` leaves it alone. */
  lemma NormalHasNoEdgeWhitespace(s: string)
    requires IsNormal(s)
    ensures s == [] || (!IsPyWhitespace(s[0]) && !IsPyWhitespace(s[|s| - 1]))
  {
  }

  /** Stripping printable text keeps it printable and leaves no space or newline at either end. */
  lemma StripKept(d: string)
    requires forall i :: 0 <= i < |d| ==> IsKept(d[i])
    ensures var r := Strip(d);
      && (forall i :: 0 <= i < |r| ==> IsKept(r[i]))
      && (r == [] || (r[0] != ' ' && r[0] != '\n' && r[|r| - 1] != ' ' && r[|r| - 1] != '\n'))
  {
    var r := Strip(d);
    StripSlice(d);
    var i, j :| 0 <= i <= j <= |d| && r == d[i..j];
    assert forall k :: 0 <= k < |r| ==> r[k] == d[i + k];
  }

  /** The normaliser's output is printable ASCII or newlines, and is not padded by spaces or newlines. */
  lemma NormalizeTextShape(s: string)
    ensures forall i :: 0 <= i < |NormalizeText(s)| ==> IsKept(NormalizeText(s)[i])
    ensures forall i :: 0 <= i < |NormalizeText(s)| ==> NormalizeText(s)[i] != '\r' && NormalizeText(s)[i] != '\t'
    ensures var r := NormalizeText(s);
      r == [] || (r[0] != ' ' && r[0] != '\n' && r[|r| - 1] != ' ' && r[|r| - 1] != '\n')
  {
    var d := DropUnprintable(CollapseBlanks(ReplaceCr(ReplaceCrLf(s))));
    DropShape(CollapseBlanks(ReplaceCr(ReplaceCrLf(s))));
    StripKept(d);
    var r := Strip(d);
    assert r == NormalizeText(s);
    assert forall i :: 0 <= i < |r| ==> IsKept(r[i]) && r[i] != '\r' && r[i] != '\t';
  }

  /** A text already in normal form is returned unchanged. */
  lemma NormalizeFixesNormalText(s: string)
    requires IsNormal(s)
    ensures NormalizeText(s) == s
  {
    PassesFixNormalText(s);
    StripIdentity(s);
  }

  lemma PassesFixNormalText(s: string)
    requires IsNormal(s)
    ensures DropUnprintable(CollapseBlanks(ReplaceCr(ReplaceCrLf(s)))) == s
  {
    assert forall i :: 0 <= i < |s| ==> s[i] != '\r' && s[i] != '\t';
    ReplaceCrLfIdentity(s);
    assert ReplaceCr(s) == s;
    CollapseIdentity(s, false);
    DropShape(s);
  }

  /** `normalize_documents`: one new document per input, in order, with the metadata copied. */
  function NormalizeDocuments(docs: seq<Doc>): (r: seq<Doc>)
    ensures |r| == |docs|
    ensures forall i :: 0 <= i < |docs| ==>
              r[i].content == NormalizeText(docs[i].content) && r[i].metadata == docs[i].metadata
  {
    if docs == [] then []
    else
      var rest := NormalizeDocuments(docs[1..]);
      assert forall i :: 1 <= i < |docs| ==> docs[1..][i - 1] == docs[i];
      [Doc(NormalizeText(docs[0].content), docs[0].metadata)] + rest
  }

  /** Text without carriage returns passes both line-ending replacements unchanged. */
  lemma LineEndingsIdentity(s: string)
    requires forall i :: 0 <= i < |s| ==> s[i] != '\r'
    ensures ReplaceCr(ReplaceCrLf(s)) == s
  {
    ReplaceCrLfIdentity(s);
    assert ReplaceCr(s) == s;
  }

  /** The blank pass on the first document of the normaliser's list test. */
  lemma TabCollapses(a: string, tab: string, b: string)
    requires a == "A" && tab == "\t" && b == "B"
    ensures CollapseBlanks(a + tab + b) == "A B"
  {
    CollapseAppend(a + tab, b, false);
    CollapseAppend(a, tab, false);
    assert CollapseFrom(a, false) == "A";
    CollapseBlankRun(tab, false);
    assert CollapseFrom(b, true) == "B";
  }

  /** The first document of the normaliser's list test: a tab becomes a space. */
  lemma TabExample(s: string)
    requires s == "A\tB"
    ensures NormalizeText(s) == "A B"
  {
    LineEndingsIdentity(s);
    assert s == "A" + "\t" + "B";
    TabCollapses("A", "\t", "B");
    var c := "A B";
    assert forall i :: 0 <= i < |c| ==> IsKept(c[i]);
    DropShape(c);
    StripIdentity(c);
  }

  /** Three spaces on each side of normal text collapse to one space on each side. */
  lemma PaddingCollapses(pad: string, body: string)
    requires pad == "   " && body != [] && IsNormal(body)
    ensures CollapseBlanks(pad + body + pad) == " " + body + " "
  {
    var front := pad + body;
    CollapseAppend(front, pad, false);
    assert front[|front| - 1] == body[|body| - 1];
    assert !EndRun(front, false);
    CollapseBlankRun(pad, false);
    CollapseAppend(pad, body, false);
    assert EndRun(pad, false);
    assert forall i :: 0 <= i < |body| ==> body[i] != '\t';
    CollapseIdentity(body, true);
    assert CollapseFrom(front, false) == " " + body;
  }

  /** Normal text with one space on each side passes the unprintable filter unchanged. */
  lemma PaddingPrintable(body: string)
    requires IsNormal(body)
    ensures DropUnprintable(" " + body + " ") == " " + body + " "
  {
    var c := " " + body + " ";
    assert forall i :: 0 <= i < |c| ==> IsKept(c[i]) by {
      forall i | 0 <= i < |c|
        ensures IsKept(c[i])
      {
        if 0 < i < |c| - 1 {
          assert c[i] == body[i - 1];
        }
      }
    }
    DropShape(c);
  }

  /** Normal text padded by three spaces on each side normalises back to itself. */
  lemma PaddedNormalText(body: string)
    requires body != [] && IsNormal(body)
    ensures NormalizeText("   " + body + "   ") == body
  {
    var pad := "   ";
    var s := pad + body + pad;
    forall i | 0 <= i < |s|
      ensures s[i] != '\r'
    {
      if 3 <= i < 3 + |body| {
        assert s[i] == body[i - 3];
      }
    }
    LineEndingsIdentity(s);
    PaddingCollapses(pad, body);
    PaddingPrintable(body);
    NormalHasNoEdgeWhitespace(body);
    StripOneSpaceEachSide(body);
  }

  /** The second document of the normaliser's list test: surrounding spaces are stripped. */
  lemma PaddingExample(body: string)
    requires body == "Leading and trailing"
    ensures NormalizeText("   " + body + "   ") == "Leading and trailing"
  {
    assert forall i :: 0 <= i < |body| ==> IsKept(body[i]);
    assert NoDoubleSpace(body);
    PaddedNormalText(body);
  }

  // Filtering after collapsing can join two blank runs that an unprintable
  // character kept apart, so the output may hold a doubled space and a second
  // normalisation changes it.

  lemma {:induction false} DropAppend(a: string, b: string)
    ensures DropUnprintable(a + b) == DropUnprintable(a) + DropUnprintable(b)
    decreases |a|
  {
    if a == [] {
      assert a + b == b;
    } else {
      assert (a + b)[0] == a[0];
      assert (a + b)[1..] == a[1..] + b;
      DropAppend(a[1..], b);
    }
  }

  /** `"a \x00 b"` normalises to `"a  b"`: a doubled space survives. */
  lemma UnprintableBetweenSpaces(s: string)
    requires s == "a \U{0} b"
    ensures NormalizeText(s) == "a  b"
    ensures !NoDoubleSpace(NormalizeText(s))
  {
    LineEndingsIdentity(s);
    assert forall i :: 0 <= i < |s| ==> s[i] != '\t';
    assert NoDoubleSpace(s);
    CollapseIdentity(s, false);
    assert DropUnprintable(s[4..]) == "b";
    assert DropUnprintable(s[3..]) == " b";
    assert DropUnprintable(s[2..]) == " b";
    assert DropUnprintable(s[1..]) == "  b";
    assert DropUnprintable(s) == "a  b";
    var d := "a  b";
    StripIdentity(d);
    assert 0 <= 1 < |d| - 1 && d[1] == ' ' && d[2] == ' ';
  }

  /** A second normalisation of `"a  b"` changes it to `"a b"`, so the normaliser is not idempotent. */
  lemma NormalizeNotIdempotent(s: string)
    requires s == "a \U{0} b"
    ensures NormalizeText(NormalizeText(s)) == "a b" != NormalizeText(s)
  {
    UnprintableBetweenSpaces(s);
    var d := "a  b";
    LineEndingsIdentity(d);
    assert CollapseFrom(d[3..], true) == "b";
    assert CollapseFrom(d[2..], true) == "b";
    assert CollapseFrom(d[1..], false) == " b";
    assert CollapseBlanks(d) == "a b";
    var e := "a b";
    assert forall i :: 0 <= i < |e| ==> IsKept(e[i]);
    DropShape(e);
    StripIdentity(e);
  }

  /** The unprintable filter with tabs spared, so that the blank pass after it still sees them. */
  function DropUnprintableKeepTabs(s: string): string
    decreases |s|
  {
    if s == [] then []
    else if IsKept(s[0]) || s[0] == '\t' then [s[0]] + DropUnprintableKeepTabs(s[1..])
    else DropUnprintableKeepTabs(s[1..])
  }

  lemma {:induction false} DropKeepTabsShape(s: string)
    ensures forall i :: 0 <= i < |DropUnprintableKeepTabs(s)| ==>
              IsKept(DropUnprintableKeepTabs(s)[i]) || DropUnprintableKeepTabs(s)[i] == '\t'
    ensures (forall i :: 0 <= i < |s| ==> IsKept(s[i]) || s[i] == '\t') ==> DropUnprintableKeepTabs(s) == s
    decreases |s|
  {
    if s != [] {
      assert forall i :: 0 <= i < |s[1..]| ==> s[1..][i] == s[i + 1];
      DropKeepTabsShape(s[1..]);
    }
  }

  /** The normaliser with the blank pass moved after the unprintable filter. */
  function NormalizeTextIntended(s: string): string
  {
    Strip(CollapseBlanks(DropUnprintableKeepTabs(ReplaceCr(ReplaceCrLf(s)))))
  }

  /** Stripping printable text without doubled spaces gives text in normal form. */
  lemma StripNormal(c: string)
    requires (forall i :: 0 <= i < |c| ==> IsKept(c[i])) && NoDoubleSpace(c)
    ensures IsNormal(Strip(c))
  {
    var r := Strip(c);
    StripKept(c);
    StripSlice(c);
    var i, j :| 0 <= i <= j <= |c| && r == c[i..j];
    assert forall k :: 0 <= k < |r| ==> r[k] == c[i + k];
  }

  /** Every output of the corrected normaliser is in normal form, doubled spaces included. */
  lemma IntendedIsNormal(s: string)
    ensures IsNormal(NormalizeTextIntended(s))
  {
    var b := DropUnprintableKeepTabs(ReplaceCr(ReplaceCrLf(s)));
    DropKeepTabsShape(ReplaceCr(ReplaceCrLf(s)));
    CollapseShape(b, false);
    StripNormal(CollapseBlanks(b));
  }

  /** The corrected normaliser leaves text in normal form unchanged. */
  lemma IntendedFixesNormalText(s: string)
    requires IsNormal(s)
    ensures NormalizeTextIntended(s) == s
  {
    assert forall i :: 0 <= i < |s| ==> s[i] != '\r' && s[i] != '\t';
    LineEndingsIdentity(s);
    DropKeepTabsShape(s);
    assert DropUnprintableKeepTabs(s) == s;
    CollapseIdentity(s, false);
    assert CollapseBlanks(s) == s;
    NormalHasNoEdgeWhitespace(s);
    StripIdentity(s);
  }

  /** Normalising twice with the corrected normaliser is normalising once. */
  lemma IntendedIdempotent(s: string)
    ensures NormalizeTextIntended(NormalizeTextIntended(s)) == NormalizeTextIntended(s)
  {
    IntendedIsNormal(s);
    IntendedFixesNormalText(NormalizeTextIntended(s));
  }
}
