/**
 * Text extraction from an uploaded PDF résumé (backend/utils/pdfParser.js):
 * the guards around the PDF library call and the whitespace clean-up of the
 * text it returns. The library itself is a parameter.
 */
module PdfParser {
  import opened Wrappers
  import opened Strings

  type Bytes = seq<bv8>

  /** What the PDF library reports about a document. A missing `text` is the empty string. */
  datatype PdfData = PdfData(text: string, numpages: nat)

  /** What `extractTextFromPDF` resolves to. */
  datatype Extracted = Extracted(text: string, pages: nat)

  const BufferRequired := "PDF buffer is required"
  const NoTextContent := "No text content found in PDF"
  const FailurePrefix := "Failed to parse PDF: "

  predicate NoNewline(s: string)
  {
    forall i :: 0 <= i < |s| ==> s[i] != '\n'
  }

  /** No two adjacent whitespace characters, and the only whitespace is the plain space. */
  predicate SingleSpaced(s: string)
  {
    && (forall i :: 0 <= i < |s| && IsSpace(s[i]) ==> s[i] == ' ')
    && (forall i :: 0 <= i < |s| - 1 ==> !(IsSpace(s[i]) && IsSpace(s[i + 1])))
  }

  /** The non-whitespace characters of `s`, in order. */
  function Visible(s: string): string
    decreases |s|
  {
    if s == [] then [] else (if IsSpace(s[0]) then [] else [s[0]]) + Visible(s[1..])
  }

  /** A word: a non-empty run of non-whitespace characters. */
  predicate IsWord(w: string)
  {
    w != [] && forall i :: 0 <= i < |w| ==> !IsSpace(w[i])
  }

  /** The maximal runs of non-whitespace characters of `s`, in order. */
  function Words(s: string): (r: seq<string>)
    ensures s != [] && !IsSpace(s[0]) ==> r != []
    ensures forall k :: 0 <= k < |r| ==> IsWord(r[k])
    decreases |s|
  {
    if s == [] then []
    else
      var rest := Words(s[1..]);
      if IsSpace(s[0]) then rest
      else if |s| > 1 && !IsSpace(s[1]) then
        var w := [s[0]] + rest[0];
        assert forall i :: 1 <= i < |w| ==> w[i] == rest[0][i - 1];
        [w] + rest[1..]
      else [[s[0]]] + rest
  }

  /** The words joined by single spaces. */
  function Unwords(ws: seq<string>): string
  {
    if ws == [] then []
    else if |ws| == 1 then ws[0]
    else ws[0] + [' '] + Unwords(ws[1..])
  }

  /** `.replace(/\s+/g, ' ')`: every maximal whitespace run becomes a single space, so the words stay as they were. */
  function CollapseSpaces(s: string): (r: string)
    ensures (r == []) == (s == [])
    ensures s != [] ==> (IsSpace(r[0]) <==> IsSpace(s[0]))
    ensures s != [] ==> (IsSpace(r[|r| - 1]) <==> IsSpace(s[|s| - 1]))
    ensures Words(r) == Words(s)
    decreases |s|
  {
    if s == [] then []
    else
      assert s == [s[0]] + s[1..];
      WordsCons(s[0], s[1..]);
      if IsSpace(s[0]) then
        var t := TrimStart(s[1..]);
        var rest := CollapseSpaces(t);
        WordsCons(' ', rest);
        WordsTrimStart(s[1..]);
        TrimStartLast(s[1..]);
        [' '] + rest
      else
        var rest := CollapseSpaces(s[1..]);
        WordsCons(s[0], rest);
        [s[0]] + rest
  }

  /** What `TrimStart` keeps ends as its input does; when it keeps nothing, the input was all whitespace. */
  lemma TrimStartLast(u: string)
    ensures TrimStart(u) == [] ==> u == [] || IsSpace(u[|u| - 1])
    ensures TrimStart(u) != [] ==> TrimStart(u)[|TrimStart(u)| - 1] == u[|u| - 1]
  {
    assert TrimStart(u) == [] ==> u[..|u|] == u;
  }

  /** How a character in front of `t` changes its words. */
  lemma WordsCons(c: char, t: string)
    ensures Words([c] + t) ==
      if IsSpace(c) then Words(t)
      else if t != [] && !IsSpace(t[0]) then [[c] + Words(t)[0]] + Words(t)[1..]
      else [[c]] + Words(t)
  {
    assert ([c] + t)[1..] == t;
  }

  /** Leading whitespace is no part of any word. */
  lemma {:induction false} WordsTrimStart(s: string)
    ensures Words(TrimStart(s)) == Words(s)
    decreases |s|
  {
    if s != [] && IsSpace(s[0]) {
      WordsTrimStart(s[1..]);
      assert s == [s[0]] + s[1..];
      WordsCons(s[0], s[1..]);
    }
  }

  /** A trailing whitespace character is no part of any word. */
  lemma {:induction false} WordsSnocSpace(u: string, c: char)
    requires IsSpace(c)
    ensures Words(u + [c]) == Words(u)
    decreases |u|
  {
    if u == [] {
      assert u + [c] == [c] + [];
      WordsCons(c, []);
    } else {
      var t := u[1..];
      WordsSnocSpace(t, c);
      assert u + [c] == [u[0]] + (t + [c]);
      assert u == [u[0]] + t;
      WordsCons(u[0], t + [c]);
      WordsCons(u[0], t);
      if t != [] {
        assert (t + [c])[0] == t[0];
      }
    }
  }

  /** Trailing whitespace is no part of any word. */
  lemma {:induction false} WordsTrimEnd(s: string)
    ensures Words(TrimEnd(s)) == Words(s)
    decreases |s|
  {
    if s != [] && IsSpace(s[|s| - 1]) {
      var init := s[..|s| - 1];
      WordsTrimEnd(init);
      assert s == init + [s[|s| - 1]];
      WordsSnocSpace(init, s[|s| - 1]);
    }
  }

  /** Trimming keeps the words. */
  lemma WordsTrim(s: string)
    ensures Words(Trim(s)) == Words(s)
  {
    WordsTrimStart(s);
    WordsTrimEnd(TrimStart(s));
  }

  /** Joining words after a glued-on first character is gluing that character to the joined words. */
  lemma UnwordsConsChar(c: char, ws: seq<string>)
    requires ws != []
    ensures Unwords([[c] + ws[0]] + ws[1..]) == [c] + Unwords(ws)
  {
    var vs := [[c] + ws[0]] + ws[1..];
    assert vs[1..] == ws[1..];
    if |ws| > 1 {
      assert [c] + ws[0] + [' '] + Unwords(ws[1..]) == [c] + (ws[0] + [' '] + Unwords(ws[1..]));
    }
  }

  /** A trimmed, single-spaced text without newlines is its words joined by single spaces. */
  lemma {:induction false} SpacedIsUnwords(t: string)
    requires IsTrimmed(t) && SingleSpaced(t) && NoNewline(t)
    ensures t == Unwords(Words(t))
    decreases |t|
  {
    if t != [] {
      var c, u := t[0], t[1..];
      assert t == [c] + u;
      WordsCons(c, u);
      if u != [] {
        assert u == t[1..|t|];
        SpacingOfSlice(t, 1, |t|);
        assert u[|u| - 1] == t[|t| - 1];
        if !IsSpace(u[0]) {
          SpacedIsUnwords(u);
          UnwordsConsChar(c, Words(u));
        } else {
          assert u[0] == t[1] && |t| > 2;
          var v := u[1..];
          assert u == [u[0]] + v;
          WordsCons(u[0], v);
          assert v == t[2..|t|];
          SpacingOfSlice(t, 2, |t|);
          assert v[0] == t[2] && v[|v| - 1] == t[|t| - 1];
          SpacedIsUnwords(v);
          assert t == [c] + [' '] + v;
        }
      }
    }
  }

  /** After the first replace, the only whitespace is single spaces: in particular no newline is left. */
  lemma {:induction false} CollapseSpacesSpacing(s: string)
    ensures SingleSpaced(CollapseSpaces(s)) && NoNewline(CollapseSpaces(s))
    decreases |s|
  {
    if s != [] {
      var head, tail := if IsSpace(s[0]) then ' ' else s[0], if IsSpace(s[0]) then TrimStart(s[1..]) else s[1..];
      var rest := CollapseSpaces(tail);
      CollapseSpacesSpacing(tail);
      assert CollapseSpaces(s) == [head] + rest;
      assert IsSpace(head) ==> rest == [] || !IsSpace(rest[0]);
      SingleSpacedCons(head, rest);
    }
  }

  lemma SingleSpacedCons(c: char, s: string)
    requires SingleSpaced(s) && NoNewline(s)
    requires IsSpace(c) ==> c == ' ' && (s == [] || !IsSpace(s[0]))
    ensures SingleSpaced([c] + s) && NoNewline([c] + s)
  {
    var t := [c] + s;
    forall i | 1 <= i < |t| ensures t[i] == s[i - 1] { }
  }

  /** The maximal runs of characters other than the newline, in order. */
  function Lines(s: string): (r: seq<string>)
    ensures s != [] && s[0] != '\n' ==> r != []
    decreases |s|
  {
    if s == [] then []
    else
      var rest := Lines(s[1..]);
      if s[0] == '\n' then rest
      else if |s| > 1 && s[1] != '\n' then [[s[0]] + rest[0]] + rest[1..]
      else [[s[0]]] + rest
  }

  /** How a character in front of `t` changes its lines. */
  lemma LinesCons(c: char, t: string)
    ensures Lines([c] + t) ==
      if c == '\n' then Lines(t)
      else if t != [] && t[0] != '\n' then [[c] + Lines(t)[0]] + Lines(t)[1..]
      else [[c]] + Lines(t)
  {
    assert ([c] + t)[1..] == t;
  }

  /** Drops leading newlines: the result is a suffix of `s` and what was dropped is newlines. */
  function DropNewlines(s: string): (r: string)
    ensures |r| <= |s| && r == s[|s| - |r|..]
    ensures forall i :: 0 <= i < |s| - |r| ==> s[i] == '\n'
    ensures r == [] || r[0] != '\n'
    ensures Outside(r, "\n") == Outside(s, "\n")
    ensures Lines(r) == Lines(s)
    decreases |s|
  {
    if s != [] && s[0] == '\n' then DropNewlines(s[1..]) else s
  }

  /** What `DropNewlines` keeps ends as its input does; when it keeps nothing, the input ended with a newline or was empty. */
  lemma DropNewlinesLast(u: string)
    ensures DropNewlines(u) == [] ==> u == [] || u[|u| - 1] == '\n'
    ensures DropNewlines(u) != [] ==> DropNewlines(u)[|DropNewlines(u)| - 1] == u[|u| - 1]
  {
  }

  /** `.replace(/\n+/g, '\n')`: every maximal run of newlines becomes one newline, so no two are adjacent. */
  function CollapseNewlines(s: string): (r: string)
    ensures |r| <= |s|
    ensures s != [] ==> r != [] && r[0] == s[0]
    ensures forall i :: 0 <= i < |r| - 1 ==> !(r[i] == '\n' && r[i + 1] == '\n')
    ensures Outside(r, "\n") == Outside(s, "\n")
    ensures '\n' in r <==> '\n' in s
    decreases |s|
  {
    if s == [] then []
    else
      assert s == [s[0]] + s[1..];
      if s[0] == '\n' then
        var rest := CollapseNewlines(DropNewlines(s[1..]));
        OutsideCons('\n', rest, "\n");
        ['\n'] + rest
      else
        var rest := CollapseNewlines(s[1..]);
        OutsideCons(s[0], rest, "\n");
        [s[0]] + rest
  }

  /**
   * The newline replace keeps the lines and whether the text ends with a newline;
   * with the first character and no two newlines in a row, this fixes its result.
   */
  lemma {:induction false} CollapseNewlinesLines(s: string)
    ensures Lines(CollapseNewlines(s)) == Lines(s)
    ensures s != [] ==> (var r := CollapseNewlines(s); r[|r| - 1] == '\n' <==> s[|s| - 1] == '\n')
    decreases |s|
  {
    if s != [] {
      assert s == [s[0]] + s[1..];
      if s[0] == '\n' {
        var d := DropNewlines(s[1..]);
        CollapseNewlinesLines(d);
        LinesCons('\n', CollapseNewlines(d));
        DropNewlinesLast(s[1..]);
      } else {
        var rest := CollapseNewlines(s[1..]);
        CollapseNewlinesLines(s[1..]);
        LinesCons(s[0], rest);
        LinesCons(s[0], s[1..]);
      }
    }
  }

  /** The clean-up chain applied to the extracted text. */
  function CleanText(s: string): string
  {
    Trim(CollapseNewlines(CollapseSpaces(s)))
  }

  /**
   * `extractTextFromPDF(buffer)`, with the PDF library as `parse`: an error from it,
   * a missing buffer or a blank text are all reported as "Failed to parse PDF: ...".
   */
  function ExtractTextFromPdf(buffer: Option<Bytes>, parse: Bytes -> Result<PdfData, string>): (r: Result<Extracted, string>)
    ensures buffer.None? ==> r == Err(FailurePrefix + BufferRequired)
    ensures r.Err? ==> StartsWith(r.error, FailurePrefix)
    ensures r.Ok? <==> buffer.Some? && parse(buffer.value).Ok? && !AllSpace(parse(buffer.value).value.text)
    ensures r.Ok? ==> r.value.pages == parse(buffer.value).value.numpages
    ensures r.Ok? ==> var t := r.value.text;
      t != [] && IsTrimmed(t) && NoNewline(t) && SingleSpaced(t)
      && Visible(t) == Visible(parse(buffer.value).value.text)
      && Words(t) == Words(parse(buffer.value).value.text)
      && t == Unwords(Words(parse(buffer.value).value.text))
  {
    if buffer.None? then Err(FailurePrefix + BufferRequired)
    else
      match parse(buffer.value)
      case Err(message) => Err(FailurePrefix + message)
      case Ok(data) =>
        if Trim(data.text) == [] then Err(FailurePrefix + NoTextContent)
        else
          CleanTextProperties(data.text);
          Ok(Extracted(CleanText(data.text), data.numpages))
  }

  /** The second replace never changes anything: the first one has already removed every newline. */
  lemma {:induction false} NewlineReplaceIsNoOp(s: string)
    requires NoNewline(s)
    ensures CollapseNewlines(s) == s
    decreases |s|
  {
    if s != [] { NewlineReplaceIsNoOp(s[1..]); }
  }

  lemma {:induction false} VisibleConcat(a: string, b: string)
    ensures Visible(a + b) == Visible(a) + Visible(b)
    decreases |a|
  {
    if a == [] {
      assert a + b == b;
    } else {
      assert (a + b)[0] == a[0];
      assert (a + b)[1..] == a[1..] + b;
      VisibleConcat(a[1..], b);
    }
  }

  /** A string is blank exactly when it has no visible character. */
  lemma {:induction false} VisibleEmpty(s: string)
    ensures Visible(s) == [] <==> AllSpace(s)
    decreases |s|
  {
    if s != [] {
      VisibleEmpty(s[1..]);
      if AllSpace(s) { assert AllSpace(s[1..]) by { forall i | 0 <= i < |s| - 1 ensures IsSpace(s[1..][i]) { assert s[1..][i] == s[i + 1]; } } }
    }
  }

  /** Collapsing whitespace keeps every visible character, in order. */
  lemma {:induction false} CollapseSpacesKeepsVisible(s: string)
    ensures Visible(CollapseSpaces(s)) == Visible(s)
    decreases |s|
  {
    if s != [] {
      if IsSpace(s[0]) {
        var t := TrimStart(s[1..]);
        CollapseSpacesKeepsVisible(t);
        VisibleConcat([' '], CollapseSpaces(t));
        TrimStartKeepsVisible(s[1..]);
      } else {
        CollapseSpacesKeepsVisible(s[1..]);
        VisibleConcat([s[0]], CollapseSpaces(s[1..]));
      }
    }
  }

  /** Trimming removes only whitespace. */
  lemma TrimKeepsVisible(s: string)
    ensures Visible(Trim(s)) == Visible(s)
  {
    TrimStartKeepsVisible(s);
    TrimEndKeepsVisible(TrimStart(s));
  }

  lemma TrimStartKeepsVisible(s: string)
    ensures Visible(TrimStart(s)) == Visible(s)
  {
    var k := |s| - |TrimStart(s)|;
    TrimStartSplit(s);
    VisibleConcat(s[..k], TrimStart(s));
    VisibleEmpty(s[..k]);
  }

  lemma TrimEndKeepsVisible(s: string)
    ensures Visible(TrimEnd(s)) == Visible(s)
  {
    var k := |TrimEnd(s)|;
    TrimEndSplit(s);
    VisibleConcat(TrimEnd(s), s[k..]);
    VisibleEmpty(s[k..]);
  }

  /** Trimming a single-spaced string without newlines keeps it so. */
  lemma TrimKeepsSpacing(s: string)
    requires SingleSpaced(s) && NoNewline(s)
    ensures SingleSpaced(Trim(s)) && NoNewline(Trim(s))
  {
    var t := TrimStart(s);
    var k := |s| - |t|;
    assert t == s[k..|s|];
    SpacingOfSlice(s, k, |s|);
    assert TrimEnd(t) == t[0..|TrimEnd(t)|];
    SpacingOfSlice(t, 0, |TrimEnd(t)|);
  }

  /** A slice of a single-spaced string without newlines is one too. */
  lemma SpacingOfSlice(s: string, lo: nat, hi: nat)
    requires SingleSpaced(s) && NoNewline(s) && lo <= hi <= |s|
    ensures SingleSpaced(s[lo..hi]) && NoNewline(s[lo..hi])
  {
    forall i | 0 <= i < hi - lo ensures s[lo..hi][i] == s[lo + i] { }
  }

  /**
   * What the clean-up guarantees: no newline, no two adjacent whitespace characters,
   * no whitespace at either end, the visible characters unchanged and in order,
   * and a non-empty result whenever the input was not blank. Above all, the words
   * are kept, so the result is exactly the words of `s` joined by single spaces.
   */
  lemma CleanTextProperties(s: string)
    ensures var r := CleanText(s);
      && IsTrimmed(r) && NoNewline(r) && SingleSpaced(r)
      && Visible(r) == Visible(s)
      && (r == [] <==> AllSpace(s))
      && Words(r) == Words(s)
      && r == Unwords(Words(s))
  {
    var c := CollapseSpaces(s);
    CollapseSpacesSpacing(s);
    NewlineReplaceIsNoOp(c);
    CollapseSpacesKeepsVisible(s);
    TrimKeepsVisible(c);
    TrimKeepsSpacing(c);
    VisibleEmpty(s);
    VisibleEmpty(c);
    WordsTrim(c);
    SpacedIsUnwords(CleanText(s));
  }
}
