/**
 * `checkSalaryMatch` (backend/services/jobMatchService.js): the numbers in a
 * free-text salary are the matches of the global pattern `\d+,?\d*`: a digit
 * run, at most one comma and another digit run. Their commas are dropped, and
 * the resulting figure or band is compared with the preferred range.
 */
module SalaryMatch {
  import opened Strings

  predicate AllDigits(s: string)
  {
    forall i :: 0 <= i < |s| ==> IsDigit(s[i])
  }

  predicate NoDigit(s: string)
  {
    forall i :: 0 <= i < |s| ==> !IsDigit(s[i])
  }

  /** The longest run of digits `s` starts with. */
  function LeadingDigits(s: string): (r: string)
    ensures |r| <= |s| && r == s[..|r|] && AllDigits(r)
    ensures |r| < |s| ==> !IsDigit(s[|r|])
    decreases |s|
  {
    if s != [] && IsDigit(s[0]) then [s[0]] + LeadingDigits(s[1..]) else []
  }

  /** Text matched by `\d+,?\d*`: it starts with a digit and holds only digits and at most one comma. */
  predicate IsSalaryToken(t: string)
  {
    && t != [] && IsDigit(t[0])
    && (forall i :: 0 <= i < |t| ==> IsDigit(t[i]) || t[i] == ',')
    && (forall i, j :: 0 <= i < j < |t| && t[i] == ',' ==> t[j] != ',')
  }

  /** `salary.match` with the global pattern `\d+,?\d*`, scanning left to right; `[]` stands for the `null` of no match. */
  function SalaryTokens(s: string): (r: seq<string>)
    ensures forall i :: 0 <= i < |r| ==> IsSalaryToken(r[i])
    decreases |s|
  {
    if s == [] then []
    else if !IsDigit(s[0]) then SalaryTokens(s[1..])
    else
      var d1 := LeadingDigits(s);
      var rest := s[|d1|..];
      if rest != [] && rest[0] == ',' then
        var d2 := LeadingDigits(rest[1..]);
        var t := d1 + [','] + d2;
        assert forall i :: |d1| < i < |t| ==> t[i] == d2[i - |d1| - 1];
        [t] + SalaryTokens(rest[1 + |d2|..])
      else
        [d1] + SalaryTokens(rest)
  }

  /** `s.replace(/,/g, '')`: every comma is dropped and every other character kept. */
  function RemoveCommas(s: string): (r: string)
    ensures forall i :: 0 <= i < |r| ==> r[i] != ',' && r[i] in s
    ensures (forall i :: 0 <= i < |s| ==> s[i] != ',') ==> r == s
    decreases |s|
  {
    if s == [] then []
    else
      assert s == [s[0]] + s[1..];
      (if s[0] == ',' then [] else [s[0]]) + RemoveCommas(s[1..])
  }

  /** Exactly the commas are dropped: every other character is kept as often as it occurs. */
  lemma {:induction false} RemoveCommasCounts(s: string)
    ensures multiset(RemoveCommas(s)) == multiset(s)[',' := 0]
    decreases |s|
  {
    if s != [] {
      RemoveCommasCounts(s[1..]);
      assert s == [s[0]] + s[1..];
    }
  }

  function Pow10(n: nat): (r: nat)
    ensures r >= 1
  {
    if n == 0 then 1 else 10 * Pow10(n - 1)
  }

  /** `parseInt` of a string of decimal digits: a value of exactly `|d|` digits unless `d` starts with a zero. */
  function DigitsValue(d: string): (r: nat)
    ensures r < Pow10(|d|)
    ensures AllDigits(d) && d != [] && d[0] != '0' ==> Pow10(|d| - 1) <= r
    decreases |d|
  {
    if d == [] then 0
    else
      var init := d[..|d| - 1];
      assert |d| > 1 ==> init[0] == d[0];
      DigitsValue(init) * 10 + (if IsDigit(d[|d| - 1]) then d[|d| - 1] as int - '0' as int else 0)
  }

  /** `tokens.map(s => parseInt(s.replace(/,/g, '')))`. */
  function Figures(tokens: seq<string>): (r: seq<nat>)
    ensures |r| == |tokens|
    decreases |tokens|
  {
    if tokens == [] then [] else [DigitsValue(RemoveCommas(tokens[0]))] + Figures(tokens[1..])
  }

  /** The figures the salary text mentions, in order. */
  function SalaryValues(s: string): seq<nat>
  {
    Figures(SalaryTokens(s))
  }

  function SeqMin(s: seq<nat>): (m: nat)
    requires s != []
    ensures m in s && forall x :: x in s ==> m <= x
    decreases |s|
  {
    if |s| == 1 then s[0]
    else
      var m := SeqMin(s[1..]);
      assert s == [s[0]] + s[1..];
      if s[0] <= m then s[0] else m
  }

  function SeqMax(s: seq<nat>): (m: nat)
    requires s != []
    ensures m in s && forall x :: x in s ==> x <= m
    decreases |s|
  {
    if |s| == 1 then s[0]
    else
      var m := SeqMax(s[1..]);
      assert s == [s[0]] + s[1..];
      if s[0] >= m then s[0] else m
  }

  /**
   * `checkSalaryMatch(jobSalary, minSalary, maxSalary)`: no figure never matches, one
   * figure must lie in the range, and a band matches when it overlaps the range.
   */
  function CheckSalaryMatch(jobSalary: string, minSalary: int, maxSalary: int): (r: bool)
    ensures NoDigit(jobSalary) ==> !r
    ensures |SalaryValues(jobSalary)| == 1 ==> (r <==> minSalary <= SalaryValues(jobSalary)[0] <= maxSalary)
  {
    if jobSalary == [] then false
    else
      var values := SalaryValues(jobSalary);
      NoDigitNoTokens(jobSalary);
      if |values| == 0 then false
      else if |values| == 1 then values[0] >= minSalary && values[0] <= maxSalary
      else !(SeqMax(values) < minSalary || SeqMin(values) > maxSalary)
  }

  lemma {:induction false} NoDigitNoTokens(s: string)
    ensures NoDigit(s) <==> SalaryTokens(s) == []
    decreases |s|
  {
    if s != [] {
      if !IsDigit(s[0]) {
        NoDigitNoTokens(s[1..]);
        assert NoDigit(s) <==> NoDigit(s[1..]) by {
          assert forall i :: 0 < i < |s| ==> s[i] == s[1..][i - 1];
        }
      }
    }
  }

  predicate InRange(x: int, lo: int, hi: int)
  {
    lo <= x <= hi
  }

  /**
   * With a valid preferred range, a salary matches exactly when some amount lies both
   * in the range and between the smallest and largest figure the text mentions.
   */
  lemma SalaryMatchIsOverlap(jobSalary: string, minSalary: int, maxSalary: int)
    requires minSalary <= maxSalary
    ensures var values := SalaryValues(jobSalary);
      CheckSalaryMatch(jobSalary, minSalary, maxSalary) <==>
        values != [] && exists x :: InRange(x, minSalary, maxSalary) && InRange(x, SeqMin(values), SeqMax(values))
  {
    var values := SalaryValues(jobSalary);
    if jobSalary == [] {
      assert NoDigit(jobSalary);
      NoDigitNoTokens(jobSalary);
    }
    if values != [] {
      var lo, hi := SeqMin(values), SeqMax(values);
      if |values| == 1 {
        assert values[0] in values;
        assert lo == hi == values[0];
      }
      var x := if lo <= minSalary then minSalary else lo;
      if CheckSalaryMatch(jobSalary, minSalary, maxSalary) {
        assert InRange(x, minSalary, maxSalary) && InRange(x, lo, hi);
      }
    }
  }

  /** The characters of `s` that are digits, in order. */
  function DigitsOf(s: string): string
    decreases |s|
  {
    if s == [] then [] else (if IsDigit(s[0]) then [s[0]] else []) + DigitsOf(s[1..])
  }

  function Flatten(ss: seq<string>): string
    decreases |ss|
  {
    if ss == [] then [] else ss[0] + Flatten(ss[1..])
  }

  function CommasRemoved(ts: seq<string>): (r: seq<string>)
    ensures |r| == |ts|
  {
    seq(|ts|, i requires 0 <= i < |ts| => RemoveCommas(ts[i]))
  }

  lemma {:induction false} DigitsOfConcat(a: string, b: string)
    ensures DigitsOf(a + b) == DigitsOf(a) + DigitsOf(b)
    decreases |a|
  {
    if a == [] {
      assert a + b == b;
    } else {
      var h := if IsDigit(a[0]) then [a[0]] else [];
      assert (a + b)[0] == a[0];
      assert (a + b)[1..] == a[1..] + b;
      assert DigitsOf(a + b) == h + DigitsOf(a[1..] + b);
      assert DigitsOf(a) == h + DigitsOf(a[1..]);
      DigitsOfConcat(a[1..], b);
      assert h + (DigitsOf(a[1..]) + DigitsOf(b)) == (h + DigitsOf(a[1..])) + DigitsOf(b);
    }
  }

  lemma {:induction false} DigitsOfDigits(d: string)
    requires AllDigits(d)
    ensures DigitsOf(d) == d && RemoveCommas(d) == d
    decreases |d|
  {
    if d != [] {
      DigitsOfDigits(d[1..]);
    }
  }

  lemma {:induction false} RemoveCommasConcat(a: string, b: string)
    ensures RemoveCommas(a + b) == RemoveCommas(a) + RemoveCommas(b)
    decreases |a|
  {
    if a == [] {
      assert a + b == b;
    } else {
      assert (a + b)[0] == a[0] && (a + b)[1..] == a[1..] + b;
      RemoveCommasConcat(a[1..], b);
    }
  }

  lemma CommaTokenDigits(d1: string, d2: string)
    requires AllDigits(d1) && AllDigits(d2)
    ensures RemoveCommas(d1 + [','] + d2) == d1 + d2
  {
    RemoveCommasConcat(d1 + [','], d2);
    RemoveCommasConcat(d1, [',']);
    assert RemoveCommas([',']) == [] + RemoveCommas([]);
    DigitsOfDigits(d1);
    assert RemoveCommas(d1 + [',']) == d1;
    DigitsOfDigits(d2);
  }

  lemma FlattenStep(t: string, ts: seq<string>)
    ensures Flatten(CommasRemoved([t] + ts)) == RemoveCommas(t) + Flatten(CommasRemoved(ts))
  {
    assert CommasRemoved([t] + ts) == [RemoveCommas(t)] + CommasRemoved(ts);
    assert ([RemoveCommas(t)] + CommasRemoved(ts))[1..] == CommasRemoved(ts);
  }

  /** The figures account for every digit of the salary text, in order: none is lost or made up. */
  lemma {:induction false} TokensCoverDigits(s: string)
    ensures Flatten(CommasRemoved(SalaryTokens(s))) == DigitsOf(s)
    decreases |s|
  {
    if s != [] {
      if !IsDigit(s[0]) {
        TokensCoverDigits(s[1..]);
      } else {
        var d1 := LeadingDigits(s);
        var rest := s[|d1|..];
        if rest != [] && rest[0] == ',' {
          var d2 := LeadingDigits(rest[1..]);
          TokensCoverDigits(s[|d1| + 1 + |d2|..]);
          CoverCommaNumber(s, d1, d2);
        } else {
          TokensCoverDigits(rest);
          CoverDigitRun(s, d1);
        }
      }
    }
  }

  /** The step of `TokensCoverDigits` at a comma number. */
  lemma CoverCommaNumber(s: string, d1: string, d2: string)
    requires d1 != [] && d1 == LeadingDigits(s)
    requires |d1| < |s| && s[|d1|] == ',' && d2 == LeadingDigits(s[|d1|..][1..])
    requires var after := s[|d1| + 1 + |d2|..]; Flatten(CommasRemoved(SalaryTokens(after))) == DigitsOf(after)
    ensures Flatten(CommasRemoved(SalaryTokens(s))) == DigitsOf(s)
  {
    var after := s[|d1| + 1 + |d2|..];
    CommaTokenStep(s, d1, d2);
    FlattenCommaToken(d1, d2, SalaryTokens(after));
    DigitsOfCommaNumber(s, d1, d2);
  }

  lemma FlattenCommaToken(d1: string, d2: string, ts: seq<string>)
    requires AllDigits(d1) && AllDigits(d2)
    ensures Flatten(CommasRemoved([d1 + [','] + d2] + ts)) == d1 + d2 + Flatten(CommasRemoved(ts))
  {
    FlattenStep(d1 + [','] + d2, ts);
    CommaTokenDigits(d1, d2);
  }

  lemma DigitsOfCommaNumber(s: string, d1: string, d2: string)
    requires d1 == LeadingDigits(s) && |d1| < |s| && s[|d1|] == ',' && d2 == LeadingDigits(s[|d1|..][1..])
    ensures DigitsOf(s) == d1 + d2 + DigitsOf(s[|d1| + 1 + |d2|..])
  {
    assert s[|d1|..][1..][..|d2|] == s[|d1| + 1..|d1| + 1 + |d2|];
    CommaNumberSplit(s, d1, d2);
    DigitsOfPieces(d1, d2, s[|d1| + 1 + |d2|..]);
  }

  lemma CommaNumberSplit(s: string, d1: string, d2: string)
    requires |d1| + 1 + |d2| <= |s| && s[..|d1|] == d1 && s[|d1|] == ',' && s[|d1| + 1..|d1| + 1 + |d2|] == d2
    ensures s == d1 + ([','] + (d2 + s[|d1| + 1 + |d2|..]))
  {
  }

  lemma DigitsOfPieces(d1: string, d2: string, after: string)
    requires AllDigits(d1) && AllDigits(d2)
    ensures DigitsOf(d1 + ([','] + (d2 + after))) == d1 + d2 + DigitsOf(after)
  {
    var rest := [','] + (d2 + after);
    DigitsOfConcat(d1, rest);
    DigitsOfDigits(d1);
    assert rest[1..] == d2 + after;
    CommaStep(d1, d2, rest, after);
    assert d1 + (d2 + DigitsOf(after)) == d1 + d2 + DigitsOf(after);
  }

  /** The step of `TokensCoverDigits` at a digit run not followed by a comma. */
  lemma CoverDigitRun(s: string, d1: string)
    requires s != [] && IsDigit(s[0]) && d1 == LeadingDigits(s)
    requires var rest := s[|d1|..]; !(rest != [] && rest[0] == ',')
    requires Flatten(CommasRemoved(SalaryTokens(s[|d1|..]))) == DigitsOf(s[|d1|..])
    ensures Flatten(CommasRemoved(SalaryTokens(s))) == DigitsOf(s)
  {
    var rest := s[|d1|..];
    assert SalaryTokens(s) == [d1] + SalaryTokens(rest);
    DigitsOfDigits(d1);
    assert s == d1 + rest;
    DigitsOfConcat(d1, rest);
    FlattenStep(d1, SalaryTokens(rest));
  }

  lemma CommaStep(d1: string, d2: string, rest: string, after: string)
    requires AllDigits(d2) && rest != [] && rest[0] == ',' && rest[1..] == d2 + after
    ensures DigitsOf(rest) == d2 + DigitsOf(after)
  {
    assert rest == [','] + (d2 + after);
    DigitsOfConcat([','], d2 + after);
    DigitsOfConcat(d2, after);
    DigitsOfDigits(d2);
  }

  lemma {:induction false} LeadingDigitsOf(d: string, rest: string)
    requires AllDigits(d) && (rest == [] || !IsDigit(rest[0]))
    ensures LeadingDigits(d + rest) == d
    decreases |d|
  {
    if d == [] {
      assert d + rest == rest;
    } else {
      assert (d + rest)[1..] == d[1..] + rest;
      LeadingDigitsOf(d[1..], rest);
    }
  }

  lemma {:induction false} TokensSkip(p: string, rest: string)
    requires NoDigit(p)
    ensures SalaryTokens(p + rest) == SalaryTokens(rest)
    decreases |p|
  {
    if p == [] {
      assert p + rest == rest;
    } else {
      assert (p + rest)[0] == p[0] && (p + rest)[1..] == p[1..] + rest;
      TokensSkip(p[1..], rest);
    }
  }

  /** A digit run followed by neither a digit nor a comma is matched whole, as one figure. */
  lemma TokensOfDigitRun(d: string, rest: string)
    requires d != [] && AllDigits(d) && (rest == [] || (!IsDigit(rest[0]) && rest[0] != ','))
    ensures SalaryTokens(d + rest) == [d] + SalaryTokens(rest)
  {
    var s := d + rest;
    assert s[0] == d[0];
    LeadingDigitsOf(d, rest);
    assert s[|d|..] == rest;
  }

  /** A figure with a thousands separator is one match, whatever follows it. */
  lemma TokensOfCommaNumber(d1: string, d2: string, rest: string)
    requires d1 != [] && AllDigits(d1) && AllDigits(d2) && (rest == [] || !IsDigit(rest[0]))
    ensures SalaryTokens(d1 + [','] + d2 + rest) == [d1 + [','] + d2] + SalaryTokens(rest)
  {
    var s := d1 + [','] + d2 + rest;
    CommaNumberPieces(d1, d2, rest);
    CommaTokenStep(s, d1, d2);
  }

  /** How the scan splits a comma number: the two digit runs, the comma between them, and what follows. */
  lemma CommaNumberPieces(d1: string, d2: string, rest: string)
    requires d1 != [] && AllDigits(d1) && AllDigits(d2) && (rest == [] || !IsDigit(rest[0]))
    ensures var s := d1 + [','] + d2 + rest;
      && LeadingDigits(s) == d1 && |d1| < |s| && s[|d1|] == ','
      && LeadingDigits(s[|d1|..][1..]) == d2 && s[|d1| + 1 + |d2|..] == rest
  {
    var tail := [','] + (d2 + rest);
    var s := d1 + tail;
    assert d1 + [','] + d2 + rest == s;
    LeadingDigitsOf(d1, tail);
    assert s[|d1|..] == tail;
    assert tail[1..] == d2 + rest;
    LeadingDigitsOf(d2, rest);
    assert s[|d1| + 1 + |d2|..] == rest;
  }

  /** One step of the scan at a digit run followed by a comma. */
  lemma CommaTokenStep(s: string, d1: string, d2: string)
    requires d1 != [] && LeadingDigits(s) == d1 && |d1| < |s| && s[|d1|] == ','
    requires LeadingDigits(s[|d1|..][1..]) == d2
    ensures SalaryTokens(s) == [d1 + [','] + d2] + SalaryTokens(s[|d1| + 1 + |d2|..])
  {
    assert s[|d1|..][1 + |d2|..] == s[|d1| + 1 + |d2|..];
  }

  lemma DigitsValueAppend(d: string, c: char)
    requires IsDigit(c)
    ensures DigitsValue(d + [c]) == DigitsValue(d) * 10 + (c as int - '0' as int)
  {
    assert (d + [c])[..|d|] == d;
  }

  /** A single digit is worth its own value. */
  lemma DigitsValueOfDigit(c: char)
    requires IsDigit(c)
    ensures DigitsValue([c]) == c as int - '0' as int
  {
    assert [c][..0] == [];
  }

  /** Place value: the digits in front count `10^|b|` times what they would count alone. */
  lemma {:induction false} DigitsValueConcat(a: string, b: string)
    ensures DigitsValue(a + b) == DigitsValue(a) * Pow10(|b|) + DigitsValue(b)
    decreases |b|
  {
    if b == [] {
      assert a + b == a;
    } else {
      var init, c := b[..|b| - 1], b[|b| - 1];
      DigitsValueConcat(a, init);
      assert (a + b)[..|a + b| - 1] == a + init;
      assert (a + b)[|a + b| - 1] == c;
      var v := if IsDigit(c) then c as int - '0' as int else 0;
      ShiftDigit(DigitsValue(a), Pow10(|init|), DigitsValue(init), v);
    }
  }

  lemma ShiftDigit(x: int, p: int, y: int, v: int)
    ensures (x * p + y) * 10 + v == x * (10 * p) + (y * 10 + v)
  {
  }

  /** Appending "000" multiplies the value by a thousand. */
  lemma DigitsValueThousands(d: string)
    ensures DigitsValue(d + "000") == DigitsValue(d) * 1000
  {
    assert d + "000" == d + ['0'] + ['0'] + ['0'];
    DigitsValueAppend(d, '0');
    DigitsValueAppend(d + ['0'], '0');
    DigitsValueAppend(d + ['0'] + ['0'], '0');
  }

  lemma ExamplePieces()
    ensures "$70,000 - $90,000" == "$" + ("70" + [','] + "000" + (" - $" + ("90" + [','] + "000" + "")))
  {
    assert "$70,000 - $90,000" == "$70,000" + " - $90,000";
    assert "$70,000" == "$" + ("70" + [','] + "000");
    assert " - $90,000" == " - $" + ("90" + [','] + "000" + "");
  }

  lemma ExampleTokens()
    ensures SalaryTokens("$70,000 - $90,000") == ["70" + [','] + "000", "90" + [','] + "000"]
  {
    ExamplePieces();
    assert AllDigits("70") && AllDigits("90") && AllDigits("000");
    assert NoDigit("$") && NoDigit(" - $");
    TwoCommaNumbers("$", "70", "000", " - $", "90", "000");
  }

  /** Two comma numbers, each after a stretch of text without digits. */
  lemma TwoCommaNumbers(p: string, d1: string, d2: string, q: string, e1: string, e2: string)
    requires NoDigit(p) && NoDigit(q) && q != []
    requires d1 != [] && e1 != [] && AllDigits(d1) && AllDigits(d2) && AllDigits(e1) && AllDigits(e2)
    ensures SalaryTokens(p + (d1 + [','] + d2 + (q + (e1 + [','] + e2 + ""))))
         == [d1 + [','] + d2, e1 + [','] + e2]
  {
    var second := e1 + [','] + e2 + "";
    CommaNumberAfterText(q, e1, e2);
    assert (q + second)[0] == q[0];
    TokensOfCommaNumber(d1, d2, q + second);
    TokensSkip(p, d1 + [','] + d2 + (q + second));
  }

  /** A comma number that ends the text, after a stretch without digits. */
  lemma CommaNumberAfterText(q: string, e1: string, e2: string)
    requires NoDigit(q) && e1 != [] && AllDigits(e1) && AllDigits(e2)
    ensures SalaryTokens(q + (e1 + [','] + e2 + "")) == [e1 + [','] + e2]
  {
    TokensOfCommaNumber(e1, e2, "");
    assert SalaryTokens("") == [];
    TokensSkip(q, e1 + [','] + e2 + "");
  }

  lemma ExampleFigures()
    ensures DigitsValue(RemoveCommas("70" + [','] + "000")) == 70000
    ensures DigitsValue(RemoveCommas("90" + [','] + "000")) == 90000
  {
    assert "70" == ['7', '0'] && "90" == ['9', '0'];
    TensOfThousands('7');
    TensOfThousands('9');
  }

  /** A digit, a zero, a thousands separator and three zeros. */
  lemma TensOfThousands(c: char)
    requires IsDigit(c)
    ensures DigitsValue(RemoveCommas([c, '0'] + [','] + "000")) == (c as int - '0' as int) * 10000
  {
    ThousandsFigure([c, '0']);
    TensValue(c);
  }

  /** A figure written with a thousands separator and three zeros. */
  lemma ThousandsFigure(d: string)
    requires AllDigits(d)
    ensures DigitsValue(RemoveCommas(d + [','] + "000")) == DigitsValue(d) * 1000
  {
    assert AllDigits("000");
    CommaTokenDigits(d, "000");
    DigitsValueThousands(d);
  }

  /** A digit followed by a zero. */
  lemma TensValue(c: char)
    requires IsDigit(c)
    ensures DigitsValue([c, '0']) == (c as int - '0' as int) * 10
  {
    DigitsValueAppend([], c);
    assert [] + [c] == [c];
    DigitsValueAppend([c], '0');
    assert [c] + ['0'] == [c, '0'];
  }

  /** The band "$70,000 - $90,000" is read as the two figures 70000 and 90000. */
  lemma ExampleBand()
    ensures SalaryValues("$70,000 - $90,000") == [70000, 90000]
  {
    ExampleTokens();
    ExampleFigures();
  }
}
