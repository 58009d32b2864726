/**
 * The filing side of the project: the class that finds a company's central
 * index key, keeps the recent 10-K/10-Q filing index and reads the operations
 * (income) statement out of quarterly filings.
 *
 * The HTML layer is abstracted: a filing is a sequence of pages, a page holds
 * its candidate heading elements and its tables, and a table is a sequence of
 * rows of cell texts (each as `get_text(strip = True)` gives it).
 */
module Filings {

  datatype Option<T> = None | Some(value: T)

  /** A figure read from a statement cell: the result of `int(..)`, or of
      `float(..)` kept exactly as a sign, the decimal digits and the number of
      them after the '.': its value is -digits / 10^scale when `negative`,
      else digits / 10^scale (the sign kept apart, as a float keeps -0.0). */
  datatype Number = Int(i: int) | Float(negative: bool, digits: nat, scale: nat)

  /** The dictionary `process_quarterly` fills: metric name to figure, or to
      None when the figure could not be parsed. */
  type Statement = map<string, Option<Number>>

  // ---------------------------------------------------------------------------
  // Text helpers (ASCII)
  // ---------------------------------------------------------------------------

  function LowerChar(c: char): char {
    if 'A' <= c <= 'Z' then (c as int + 32) as char else c
  }

  /** str.lower() on ASCII letters. */
  function Lower(s: string): (r: string)
    ensures |r| == |s| && forall i :: 0 <= i < |s| ==> r[i] == LowerChar(s[i])
  {
    if s == [] then [] else [LowerChar(s[0])] + Lower(s[1..])
  }

  /** Lower-casing twice is lower-casing once. */
  lemma LowerIdempotent(s: string)
    ensures Lower(Lower(s)) == Lower(s)
  {
    assert forall i :: 0 <= i < |s| ==> LowerChar(LowerChar(s[i])) == LowerChar(s[i]);
  }

  /** Python's `w in s` on strings: `w` occurs in `s` as a contiguous piece. */
  predicate Occurs(w: string, s: string)
    decreases |s|
  {
    if |s| < |w| then false
    else s[..|w|] == w || Occurs(w, s[1..])
  }

  /** `w` occurs in `s` starting at index i. */
  predicate OccursAtIndex(w: string, s: string, i: int) {
    0 <= i <= |s| - |w| && s[i..i + |w|] == w
  }

  /** The scanning definition of Occurs agrees with the positional one. */
  lemma {:induction false} OccursAt(w: string, s: string)
    ensures Occurs(w, s) <==> exists i :: OccursAtIndex(w, s, i)
    decreases |s|
  {
    if |s| >= |w| {
      if s[..|w|] == w {
        assert OccursAtIndex(w, s, 0);
      } else {
        OccursAt(w, s[1..]);
        if Occurs(w, s[1..]) {
          var i :| OccursAtIndex(w, s[1..], i);
          assert s[i + 1..i + 1 + |w|] == s[1..][i..i + |w|];
          assert OccursAtIndex(w, s, i + 1);
        }
        if i :| OccursAtIndex(w, s, i) {
          assert i != 0;
          assert s[1..][i - 1..i - 1 + |w|] == s[i..i + |w|];
          assert OccursAtIndex(w, s[1..], i - 1);
        }
      }
    }
  }

  /** Whether some word of `words` occurs in `s`: `any(word in s for word in words)`. */
  predicate AnyOccurs(words: seq<string>, s: string) {
    exists i :: 0 <= i < |words| && Occurs(words[i], s)
  }

  /** `s` with every character of `cs` deleted: `re.sub('[..]', '', s)`. */
  function Remove(s: string, cs: set<char>): (r: string)
  {
    if s == [] then [] else (if s[0] in cs then [] else [s[0]]) + Remove(s[1..], cs)
  }

  /** Deleting characters distributes over concatenation. */
  lemma {:induction false} RemoveAppend(a: string, b: string, cs: set<char>)
    ensures Remove(a + b, cs) == Remove(a, cs) + Remove(b, cs)
  {
    if a == [] {
      assert a + b == b;
    } else {
      assert (a + b)[0] == a[0];
      assert (a + b)[1..] == a[1..] + b;
      RemoveAppend(a[1..], b, cs);
    }
  }

  /** Nothing of `cs` is left, everything else is kept: a deleted string is
      exactly `s` with the characters of `cs` filtered out, so deleting again
      changes nothing. */
  lemma {:induction false} RemoveKeeps(s: string, cs: set<char>)
    ensures forall i :: 0 <= i < |Remove(s, cs)| ==> Remove(s, cs)[i] !in cs
    ensures Remove(Remove(s, cs), cs) == Remove(s, cs)
    ensures (forall i :: 0 <= i < |s| ==> s[i] !in cs) ==> Remove(s, cs) == s
  {
    if s != [] {
      RemoveKeeps(s[1..], cs);
      if s[0] in cs {
        assert Remove(s, cs) == Remove(s[1..], cs);
      } else {
        RemoveAppend([s[0]], Remove(s[1..], cs), cs);
        assert Remove([s[0]], cs) == [s[0]];
      }
    }
  }

  /** Characters that `s` does not contain may be added to the deleted set. */
  lemma {:induction false} RemoveAbsent(s: string, cs: set<char>, extra: set<char>)
    requires forall i :: 0 <= i < |s| ==> s[i] !in extra
    ensures Remove(s, cs + extra) == Remove(s, cs)
  {
    if s != [] {
      RemoveAbsent(s[1..], cs, extra);
    }
  }

  // ---------------------------------------------------------------------------
  // Numbers
  // ---------------------------------------------------------------------------

  predicate IsDigit(c: char) {
    '0' <= c <= '9'
  }

  predicate AllDigits(s: string) {
    forall i :: 0 <= i < |s| ==> IsDigit(s[i])
  }

  /** The value of a string of decimal digits. */
  function DigitsValue(s: string): nat
    requires AllDigits(s)
  {
    if s == [] then 0 else 10 * DigitsValue(s[..|s| - 1]) + (s[|s| - 1] as int - '0' as int)
  }

  function Pow10(n: nat): (p: nat)
    ensures p > 0
  {
    if n == 0 then 1 else 10 * Pow10(n - 1)
  }

  /** An optional leading sign split off: (negative, rest). */
  function SplitSign(s: string): (bool, string) {
    if |s| > 0 && s[0] == '-' then (true, s[1..])
    else if |s| > 0 && s[0] == '+' then (false, s[1..])
    else (false, s)
  }

  /** int(s) on a strict grammar: an optional sign and at least one digit. */
  function ParseInt(s: string): Option<int> {
    var (negative, body) := SplitSign(s);
    if |body| > 0 && AllDigits(body) then
      Some(if negative then -(DigitsValue(body) as int) else DigitsValue(body))
    else None
  }

  /** The index of the first '.' in `s`, or |s| when there is none. */
  function DotIndex(s: string): (k: nat)
    ensures k <= |s| && (k < |s| ==> s[k] == '.') && forall i :: 0 <= i < k ==> s[i] != '.'
  {
    if s == [] then 0
    else if s[0] == '.' then 0
    else 1 + DotIndex(s[1..])
  }

  /** float(s) on a strict grammar: an optional sign, digits with at most one
      '.', and at least one digit. The value is kept exactly, as the signed
      digits without the '.' and the number of digits after it. */
  function ParseFloat(s: string): Option<(bool, nat, nat)> {
    var (negative, body) := SplitSign(s);
    var k := DotIndex(body);
    var whole := body[..k];
    var fraction := if k < |body| then body[k + 1..] else "";
    if AllDigits(whole) && AllDigits(fraction) && |whole| + |fraction| > 0 then
      Some((negative, DigitsValue(whole + fraction), |fraction|))
    else None
  }

  const NEGATIVE_PATTERN: set<char> := {'(', ')', ','}
  const POSITIVE_PATTERN: set<char> := {','}

  /** The formatting of a statement cell in process_quarterly. A cell with a
      '(' loses its parentheses and commas and, when it has a '.', is read as
      a negated float, otherwise as an int that is NOT negated; any other cell
      loses its commas and is read as a float when it has a '.', else as an
      int. A cell that does not parse gives None. */
  function ParseValue(value: string): Option<Number> {
    if '(' in value then
      var s := Remove(value, NEGATIVE_PATTERN);
      if '.' in value then NegatedFloat(ParseFloat(s)) else AsInt(ParseInt(s))
    else
      var s := Remove(value, POSITIVE_PATTERN);
      if '.' in value then AsFloat(ParseFloat(s)) else AsInt(ParseInt(s))
  }

  function AsInt(n: Option<int>): Option<Number> {
    if n.Some? then Some(Int(n.value)) else None
  }

  function AsFloat(r: Option<(bool, nat, nat)>): Option<Number> {
    if r.Some? then Some(Float(r.value.0, r.value.1, r.value.2)) else None
  }

  function NegatedFloat(r: Option<(bool, nat, nat)>): Option<Number> {
    if r.Some? then Some(Float(!r.value.0, r.value.1, r.value.2)) else None
  }

  /** The decimal digits of n, most significant first. */
  function ShowNat(n: nat): (s: string)
    ensures |s| > 0 && AllDigits(s)
  {
    if n < 10 then [('0' as int + n) as char]
    else ShowNat(n / 10) + [('0' as int + n % 10) as char]
  }

  /** Reading back the digits of n gives n. */
  lemma {:induction false} ShowNatValue(n: nat)
    ensures DigitsValue(ShowNat(n)) == n
  {
    if n >= 10 {
      ShowNatValue(n / 10);
      var s := ShowNat(n);
      assert s[..|s| - 1] == ShowNat(n / 10);
    }
  }

  /** int() reads back what ShowNat writes, with or without a minus sign. */
  lemma ParseIntShowNat(n: nat)
    ensures ParseInt(ShowNat(n)) == Some(n)
    ensures ParseInt("-" + ShowNat(n)) == Some(-(n as int))
  {
    ShowNatValue(n);
    var s := ShowNat(n);
    assert s[0] != '-' && s[0] != '+' by { assert IsDigit(s[0]); }
    assert ("-" + s)[1..] == s;
  }

  /** A string of digits holds nothing that formatting removes or tests. */
  lemma DigitsKept(s: string)
    requires AllDigits(s)
    ensures '(' !in s && ')' !in s && '.' !in s
    ensures Remove(s, POSITIVE_PATTERN) == s && Remove(s, NEGATIVE_PATTERN) == s
  {
    assert forall i :: 0 <= i < |s| ==> s[i] !in NEGATIVE_PATTERN && s[i] != '.';
    RemoveKeeps(s, POSITIVE_PATTERN);
    RemoveKeeps(s, NEGATIVE_PATTERN);
  }

  /** A cell of digits reads as their value, and in parentheses as the same
      value: the code negates only decimal cells. */
  lemma ParseValueInt(s: string)
    requires AllDigits(s) && |s| > 0
    ensures ParseValue(s) == Some(Int(DigitsValue(s)))
    ensures ParseValue(Parenthesise(s)) == Some(Int(DigitsValue(s)))
  {
    DigitsKept(s);
    assert s[0] != '-' && s[0] != '+' by { assert IsDigit(s[0]); }
    assert SplitSign(s) == (false, s);
    Parenthesised(s);
  }

  /** Deleting characters keeps only characters of `s` outside `cs`. */
  lemma {:induction false} RemoveSubset(s: string, cs: set<char>)
    ensures forall c :: c in Remove(s, cs) ==> c in s && c !in cs
  {
    if s != [] {
      RemoveSubset(s[1..], cs);
      assert forall c :: c in s[1..] ==> c in s;
    }
  }

  /** int() and float() accept nothing without a digit. */
  lemma ParsedHasDigit(s: string)
    ensures ParseInt(s).Some? ==> exists c :: c in s && IsDigit(c)
    ensures ParseFloat(s).Some? ==> exists c :: c in s && IsDigit(c)
  {
    var (negative, body) := SplitSign(s);
    assert forall c :: c in body ==> c in s;
    if ParseInt(s).Some? {
      assert body[0] in body;
    }
    if ParseFloat(s).Some? {
      var k := DotIndex(body);
      if k > 0 {
        assert body[..k][0] == body[0];
      } else {
        assert body[k + 1..][0] == body[1];
      }
    }
  }

  /** A cell without a digit, such as "n/a" or a dash, reads as None. */
  lemma NoDigitNone(v: string)
    requires forall c :: c in v ==> !IsDigit(c)
    ensures ParseValue(v) == None
  {
    RemoveSubset(v, NEGATIVE_PATTERN);
    RemoveSubset(v, POSITIVE_PATTERN);
    ParsedHasDigit(Remove(v, NEGATIVE_PATTERN));
    ParsedHasDigit(Remove(v, POSITIVE_PATTERN));
  }

  /** What int() accepts: a digit string with an optional leading sign. */
  lemma ParseIntShape(s: string)
    ensures ParseInt(s).Some? ==>
      |s| > 0 && forall i :: 0 <= i < |s| ==> IsDigit(s[i]) || (i == 0 && (s[i] == '-' || s[i] == '+'))
  {
    if ParseInt(s).Some? {
      var (negative, body) := SplitSign(s);
      if |s| > 0 && (s[0] == '-' || s[0] == '+') {
        assert forall i :: 0 < i < |s| ==> s[i] == body[i - 1];
      }
    }
  }

  /** A body made of digits, then at position k possibly a '.', then digits,
      holds digits only apart from position k. */
  lemma DotSplitShape(body: string, k: nat, whole: string, fraction: string)
    requires k <= |body| && whole == body[..k] && AllDigits(whole)
    requires fraction == (if k < |body| then body[k + 1..] else "") && AllDigits(fraction)
    ensures forall i :: 0 <= i < |body| ==> IsDigit(body[i]) || i == k
  {
    forall i | 0 <= i < |body|
      ensures IsDigit(body[i]) || i == k
    {
      if i < k {
        assert body[i] == whole[i];
      } else if i > k {
        assert body[i] == fraction[i - k - 1];
      }
    }
  }

  /** A signed string whose body holds digits apart from one '.' at k holds
      digits, that '.' and at most a leading sign. */
  lemma SignShift(s: string, body: string, k: nat)
    requires |body| > 0
    requires body == s || (|s| > 0 && (s[0] == '-' || s[0] == '+') && body == s[1..])
    requires forall i :: 0 <= i < |body| ==> IsDigit(body[i]) || (i == k && body[i] == '.')
    ensures |s| > 0
    ensures forall i :: 0 <= i < |s| ==> IsDigit(s[i]) || s[i] == '.' || (i == 0 && (s[i] == '-' || s[i] == '+'))
    ensures forall i, j :: 0 <= i < j < |s| && s[i] == '.' ==> s[j] != '.'
  {
    if body != s {
      forall i | 0 < i < |s|
        ensures IsDigit(s[i]) || (i - 1 == k && s[i] == '.')
      {
        assert s[i] == body[i - 1];
      }
    }
  }

  /** What float() accepts: digits and at most one '.', with an optional
      leading sign. */
  lemma ParseFloatShape(s: string)
    ensures ParseFloat(s).Some? ==>
      && |s| > 0
      && (forall i :: 0 <= i < |s| ==> IsDigit(s[i]) || s[i] == '.' || (i == 0 && (s[i] == '-' || s[i] == '+')))
      && (forall i, j :: 0 <= i < j < |s| && s[i] == '.' ==> s[j] != '.')
  {
    if ParseFloat(s).Some? {
      var (negative, body) := SplitSign(s);
      var k := DotIndex(body);
      DotSplitShape(body, k, body[..k], if k < |body| then body[k + 1..] else "");
      SignShift(s, body, k);
    }
  }

  /** A character that can appear in a cell that parses. */
  predicate NumberChar(c: char) {
    IsDigit(c) || c == '.' || c == ',' || c == '(' || c == ')' || c == '-' || c == '+'
  }

  /** Deletion keeps every character outside the deleted set. */
  lemma {:induction false} RemoveRetains(s: string, cs: set<char>, c: char)
    requires c in s && c !in cs
    ensures c in Remove(s, cs)
  {
    if s[0] != c {
      assert c in s[1..];
      RemoveRetains(s[1..], cs, c);
    }
  }

  /** A cell holding a character that no number has, such as "12a", stores
      None rather than raising. */
  lemma MalformedNone(v: string, c: char)
    requires c in v && !NumberChar(c)
    ensures ParseValue(v) == None
  {
    var n := Remove(v, NEGATIVE_PATTERN);
    var p := Remove(v, POSITIVE_PATTERN);
    RemoveRetains(v, NEGATIVE_PATTERN, c);
    RemoveRetains(v, POSITIVE_PATTERN, c);
    ParseIntShape(n);
    ParseIntShape(p);
    ParseFloatShape(n);
    ParseFloatShape(p);
  }

  /** Deleting characters other than '.' keeps a '.' between two parts. */
  lemma RemoveAroundDot(x: string, y: string, cs: set<char>)
    requires '.' !in cs
    ensures Remove(x + ['.'] + y, cs) == Remove(x, cs) + ['.'] + Remove(y, cs)
  {
    RemoveAppend(x + ['.'], y, cs);
    RemoveAppend(x, ['.'], cs);
    assert Remove(['.'], cs) == ['.'] by {
      assert ['.'][1..] == [];
    }
  }

  /** A cell with two '.' and no '(', such as "1.2.3", stores None. */
  lemma TwoDotsNone(v: string, i: nat, j: nat)
    requires i < j < |v| && v[i] == '.' && v[j] == '.' && '(' !in v
    ensures ParseValue(v) == None
  {
    var x, y, z := v[..i], v[i + 1..j], v[j + 1..];
    var tail := y + ['.'] + z;
    assert v == x + ['.'] + tail;
    RemoveAroundDot(x, tail, POSITIVE_PATTERN);
    RemoveAroundDot(y, z, POSITIVE_PATTERN);
    var a, b := Remove(x, POSITIVE_PATTERN), Remove(y, POSITIVE_PATTERN);
    var p := Remove(v, POSITIVE_PATTERN);
    assert p == a + ['.'] + (b + ['.'] + Remove(z, POSITIVE_PATTERN));
    assert p[|a|] == '.' && p[|a| + 1 + |b|] == '.';
    ParseFloatShape(p);
  }

  /** A plain integer cell reads as that integer. */
  lemma ParseValueShowNat(n: nat)
    ensures ParseValue(ShowNat(n)) == Some(Int(n))
  {
    ShowNatValue(n);
    ParseValueInt(ShowNat(n));
  }

  /** Thousands separators do not matter: a comma anywhere in a cell can be
      dropped without changing what the cell reads as. */
  lemma CommaIgnored(a: string, b: string)
    ensures ParseValue(a + "," + b) == ParseValue(a + b)
  {
    var v := a + "," + b;
    var w := a + b;
    forall cs: set<char> | ',' in cs
      ensures Remove(v, cs) == Remove(w, cs)
    {
      assert v == a + ([','] + b);
      RemoveAppend(a, [','] + b, cs);
      RemoveAppend([','], b, cs);
      RemoveAppend(a, b, cs);
      assert Remove([','], cs) == [] by {
        assert [','][1..] == [];
      }
    }
    assert Remove(v, NEGATIVE_PATTERN) == Remove(w, NEGATIVE_PATTERN);
    assert Remove(v, POSITIVE_PATTERN) == Remove(w, POSITIVE_PATTERN);
    assert '(' in v <==> '(' in w;
    assert '.' in v <==> '.' in w;
  }

  /** A cell written in parentheses, as statements show losses. */
  function Parenthesise(s: string): string {
    "(" + s + ")"
  }

  /** Wrapping a cell in parentheses adds nothing but the '(' the code tests
      for: stripping both patterns gives the same digits. */
  lemma ParenthesesStripped(v: string)
    requires '(' !in v && ')' !in v
    ensures '(' in Parenthesise(v)
    ensures '.' in Parenthesise(v) <==> '.' in v
    ensures Remove(Parenthesise(v), NEGATIVE_PATTERN) == Remove(v, POSITIVE_PATTERN)
  {
    var p := Parenthesise(v);
    assert p == ['('] + (v + [')']);
    RemoveAppend(['('], v + [')'], NEGATIVE_PATTERN);
    RemoveAppend(v, [')'], NEGATIVE_PATTERN);
    assert Remove(['('], NEGATIVE_PATTERN) == [] by {
      assert ['('][1..] == [];
    }
    assert Remove([')'], NEGATIVE_PATTERN) == [] by {
      assert [')'][1..] == [];
    }
    assert NEGATIVE_PATTERN == POSITIVE_PATTERN + {'(', ')'};
    RemoveAbsent(v, POSITIVE_PATTERN, {'(', ')'});
    assert p[0] == '(';
  }

  /** The sign the code gives a cell in parentheses: a decimal cell reads as
      the negated decimal, an integer cell reads as the integer itself. */
  lemma Parenthesised(v: string)
    requires '(' !in v && ')' !in v
    ensures '.' in v ==> ParseValue(Parenthesise(v)) == NegatedFloat(ParseFloat(Remove(v, POSITIVE_PATTERN)))
    ensures '.' in v ==> ParseValue(v) == AsFloat(ParseFloat(Remove(v, POSITIVE_PATTERN)))
    ensures '.' !in v ==> ParseValue(Parenthesise(v)) == ParseValue(v)
  {
    ParenthesesStripped(v);
  }

  /** A decimal cell that float() reads as d / 10^e reads as that value, and
      in parentheses as its negation. */
  lemma ParenthesisedDecimal(v: string, d: nat, e: nat)
    requires '(' !in v && ')' !in v && '.' in v
    requires ParseFloat(Remove(v, POSITIVE_PATTERN)) == Some((false, d, e))
    ensures ParseValue(v) == Some(Float(false, d, e))
    ensures ParseValue(Parenthesise(v)) == Some(Float(true, d, e))
  {
    Parenthesised(v);
  }

  /** Digits written after other digits shift them up by their length. */
  lemma {:induction false} DigitsValueAppend(a: string, b: string)
    requires AllDigits(a) && AllDigits(b)
    ensures AllDigits(a + b)
    ensures DigitsValue(a + b) == DigitsValue(a) * Pow10(|b|) + DigitsValue(b)
  {
    if b == [] {
      assert a + b == a;
    } else {
      var b' := b[..|b| - 1];
      assert (a + b)[..|a + b| - 1] == a + b';
      DigitsValueAppend(a, b');
      var d := b[|b| - 1] as int - '0' as int;
      var x := DigitsValue(a);
      var p := Pow10(|b'|);
      assert DigitsValue(a + b) == 10 * (x * p + DigitsValue(b')) + d;
      assert DigitsValue(b) == 10 * DigitsValue(b') + d;
      assert Pow10(|b|) == 10 * p;
      ShiftOnce(x, p);
    }
  }

  /** Shifting a shifted value once more. */
  lemma ShiftOnce(x: int, p: int)
    ensures 10 * (x * p) == x * (10 * p)
  {
  }

  /** The first '.' of whole + "." + rest, when whole holds only digits. */
  lemma DotIndexAfterDigits(whole: string, rest: string)
    requires AllDigits(whole)
    ensures DotIndex(whole + "." + rest) == |whole|
  {
    var s := whole + "." + rest;
    assert s[|whole|] == '.';
    assert forall i :: 0 <= i < |whole| ==> s[i] == whole[i];
  }

  /** float() reads digits, a '.', and digits as the digits taken together,
      scaled by the number of digits after the '.'. */
  lemma ParseFloatDigits(whole: string, fraction: string)
    requires AllDigits(whole) && AllDigits(fraction) && |whole| + |fraction| > 0
    ensures AllDigits(whole + fraction)
    ensures ParseFloat(whole + "." + fraction) == Some((false, DigitsValue(whole + fraction), |fraction|))
  {
    var s := whole + "." + fraction;
    if whole == [] {
      assert s[0] == '.';
    } else {
      assert s[0] == whole[0];
    }
    assert SplitSign(s) == (false, s);
    DotIndexAfterDigits(whole, fraction);
    assert s[..|whole|] == whole;
    assert s[|whole| + 1..] == fraction;
    DigitsValueAppend(whole, fraction);
  }


  /** The characters a decimal written from digits can hold. */
  lemma DecimalShape(whole: string, f: string)
    requires AllDigits(whole) && AllDigits(f)
    ensures '.' in whole + "." + f
    ensures '(' !in whole + "." + f && ')' !in whole + "." + f
    ensures Remove(whole + "." + f, POSITIVE_PATTERN) == whole + "." + f
  {
    var tail := "." + f;
    assert whole + "." + f == whole + tail;
    DigitsKept(whole);
    DigitsKept(f);
    assert Remove(".", POSITIVE_PATTERN) == ".";
    RemoveAppend(".", f, POSITIVE_PATTERN);
    RemoveAppend(whole, tail, POSITIVE_PATTERN);
    assert (whole + tail)[|whole|] == '.';
  }

  /** A decimal cell reads as its exact value: the digits on both sides of the
      '.' taken together, scaled by the number after it; in parentheses, as
      the negated value. */
  lemma ParseValueDecimal(whole: string, f: string)
    requires AllDigits(whole) && AllDigits(f) && |whole| + |f| > 0
    ensures AllDigits(whole + f)
    ensures ParseValue(whole + "." + f) == Some(Float(false, DigitsValue(whole + f), |f|))
    ensures ParseValue(Parenthesise(whole + "." + f)) == Some(Float(true, DigitsValue(whole + f), |f|))
  {
    DecimalShape(whole, f);
    ParseFloatDigits(whole, f);
    ParenthesisedDecimal(whole + "." + f, DigitsValue(whole + f), |f|);
  }

  // ---------------------------------------------------------------------------
  // Row cleaning
  // ---------------------------------------------------------------------------

  /** The cells process_quarterly keeps from a table row: every cell text that
      is neither empty nor "$", lower-cased, in the row's order. */
  function CleanRow(cells: seq<string>): seq<string> {
    if cells == [] then []
    else (if cells[0] == "" || cells[0] == "$" then [] else [Lower(cells[0])]) + CleanRow(cells[1..])
  }

  /** Cleaning works cell by cell: a row split in two cleans to the two
      cleaned halves. */
  lemma {:induction false} CleanRowAppend(a: seq<string>, b: seq<string>)
    ensures CleanRow(a + b) == CleanRow(a) + CleanRow(b)
  {
    if a == [] {
      assert a + b == b;
    } else {
      assert (a + b)[0] == a[0];
      assert (a + b)[1..] == a[1..] + b;
      CleanRowAppend(a[1..], b);
    }
  }

  /** A lower-cased text is empty or "$" only when the text was. */
  lemma LowerKeepsMarks(c: string)
    ensures Lower(c) == "" <==> c == ""
    ensures Lower(c) == "$" <==> c == "$"
  {
    if |c| == 1 {
      assert LowerChar(c[0]) == '$' <==> c[0] == '$';
    }
  }

  /** Every kept cell is non-empty, not "$" and already lower-case, and no
      cell is kept twice from one: the row is never longer than it was. */
  lemma {:induction false} CleanRowKept(cells: seq<string>)
    ensures |CleanRow(cells)| <= |cells|
    ensures forall i :: 0 <= i < |CleanRow(cells)| ==>
      CleanRow(cells)[i] != "" && CleanRow(cells)[i] != "$" && Lower(CleanRow(cells)[i]) == CleanRow(cells)[i]
  {
    if cells != [] {
      CleanRowKept(cells[1..]);
      LowerKeepsMarks(cells[0]);
      LowerIdempotent(cells[0]);
    }
  }

  /** Cleaning a cleaned row changes nothing. */
  lemma {:induction false} CleanRowIdempotent(cells: seq<string>)
    ensures CleanRow(CleanRow(cells)) == CleanRow(cells)
  {
    if cells != [] {
      var rest := CleanRow(cells[1..]);
      CleanRowIdempotent(cells[1..]);
      if cells[0] == "" || cells[0] == "$" {
        assert CleanRow(cells) == rest;
      } else {
        var c := Lower(cells[0]);
        LowerKeepsMarks(cells[0]);
        LowerIdempotent(cells[0]);
        assert CleanRow(cells) == [c] + rest;
        CleanRowAppend([c], rest);
        assert CleanRow([c]) == [c] by {
          assert [c][1..] == [];
        }
      }
    }
  }

  // ---------------------------------------------------------------------------
  // Metric vocabulary and label matching
  // ---------------------------------------------------------------------------

  /** The operations/income/earnings statement metrics, each with the label
      variations that select it, in the dictionary's order. */
  const OIE_TERMS: seq<(string, seq<string>)> := [
    ("revenue", ["revenue", "total revenue", "net sale", "total net sales"]),
    ("gross profit", ["gross profit", "gross margin"]),
    ("operating income", ["operating income", "income from operations", "loss from operations"]),
    ("net income", ["net income", "net income (loss)", "net loss"]),
    ("eps", ["basic", "basic earnings per share"])
  ]

  /** Whether `t` names one of the metrics of `terms`. */
  predicate IsTerm(terms: seq<(string, seq<string>)>, t: string) {
    exists i :: 0 <= i < |terms| && terms[i].0 == t
  }

  /** Whether a row labelled `key` selects metric `t`: some variation of an
      entry named `t` occurs in the label. */
  predicate Matched(terms: seq<(string, seq<string>)>, key: string, t: string) {
    exists i :: 0 <= i < |terms| && terms[i].0 == t && AnyOccurs(terms[i].1, key)
  }

  /** The term loop for one row labelled `key` with value cell `value`: every
      metric a variation selects and that is not yet present is set to the
      parsed value. */
  function ApplyTerms(data: Statement, key: string, value: string, terms: seq<(string, seq<string>)>): Statement {
    if terms == [] then data
    else
      var d := ApplyTerms(data, key, value, terms[..|terms| - 1]);
      var entry := terms[|terms| - 1];
      if AnyOccurs(entry.1, key) && entry.0 !in d then d[entry.0 := ParseValue(value)] else d
  }

  /** One row never changes a metric already present; it adds exactly the
      metrics its label selects, each with the row's parsed value. */
  lemma {:induction false} ApplyTermsContents(data: Statement, key: string, value: string, terms: seq<(string, seq<string>)>)
    ensures forall t :: t in data ==> t in ApplyTerms(data, key, value, terms) && ApplyTerms(data, key, value, terms)[t] == data[t]
    ensures forall t :: t in ApplyTerms(data, key, value, terms) <==> t in data || Matched(terms, key, t)
    ensures forall t :: t in ApplyTerms(data, key, value, terms) && t !in data ==> ApplyTerms(data, key, value, terms)[t] == ParseValue(value)
  {
    if terms != [] {
      var init := terms[..|terms| - 1];
      ApplyTermsContents(data, key, value, init);
      var n := |terms| - 1;
      forall t
        ensures Matched(terms, key, t) <==> Matched(init, key, t) || (terms[n].0 == t && AnyOccurs(terms[n].1, key))
      {
        if Matched(terms, key, t) {
          var i :| 0 <= i < |terms| && terms[i].0 == t && AnyOccurs(terms[i].1, key);
          if i < n {
            assert init[i] == terms[i];
          }
        }
        if Matched(init, key, t) {
          var i :| 0 <= i < |init| && init[i].0 == t && AnyOccurs(init[i].1, key);
          assert terms[i] == init[i];
        }
      }
    }
  }

  /** The kept cells are exactly the lower-cased texts of the cells that are
      neither empty nor "$". */
  lemma {:induction false} CleanRowMembers(cells: seq<string>)
    ensures forall c :: c in CleanRow(cells) <==>
      exists i :: 0 <= i < |cells| && cells[i] != "" && cells[i] != "$" && c == Lower(cells[i])
  {
    if cells != [] {
      var rest := cells[1..];
      CleanRowMembers(rest);
      forall c | c in CleanRow(cells)
        ensures exists i :: 0 <= i < |cells| && cells[i] != "" && cells[i] != "$" && c == Lower(cells[i])
      {
        if c !in CleanRow(rest) {
          assert cells[0] != "" && cells[0] != "$" && c == Lower(cells[0]);
        } else {
          var i :| 0 <= i < |rest| && rest[i] != "" && rest[i] != "$" && c == Lower(rest[i]);
          assert cells[i + 1] == rest[i];
        }
      }
      forall c | exists i :: 0 <= i < |cells| && cells[i] != "" && cells[i] != "$" && c == Lower(cells[i])
        ensures c in CleanRow(cells)
      {
        var i :| 0 <= i < |cells| && cells[i] != "" && cells[i] != "$" && c == Lower(cells[i]);
        if i > 0 {
          assert rest[i - 1] == cells[i];
        }
      }
    }
  }

  // ---------------------------------------------------------------------------
  // Rows and tables
  // ---------------------------------------------------------------------------

  /** One table row: a row with fewer than two kept cells is skipped;
      otherwise its first kept cell is the label and its second the value. */
  function ApplyRow(data: Statement, row: seq<string>): Statement {
    var cells := CleanRow(row);
    if |cells| < 2 then data else ApplyTerms(data, cells[0], cells[1], OIE_TERMS)
  }

  /** Whether `row` sets metric `t` when `t` is not yet present. */
  predicate RowSelects(row: seq<string>, t: string) {
    var cells := CleanRow(row);
    |cells| >= 2 && Matched(OIE_TERMS, cells[0], t)
  }

  /** The row loop over a table. */
  function ExtractRows(data: Statement, rows: seq<seq<string>>): Statement {
    if rows == [] then data
    else ApplyRow(ExtractRows(data, rows[..|rows| - 1]), rows[|rows| - 1])
  }

  /** What one row does, in terms of the metrics it selects. */
  lemma ApplyRowContents(data: Statement, row: seq<string>)
    ensures forall t :: t in data ==> t in ApplyRow(data, row) && ApplyRow(data, row)[t] == data[t]
    ensures forall t :: t in ApplyRow(data, row) <==> t in data || RowSelects(row, t)
    ensures forall t :: t in ApplyRow(data, row) && t !in data ==> ApplyRow(data, row)[t] == ParseValue(CleanRow(row)[1])
  {
    var cells := CleanRow(row);
    if |cells| >= 2 {
      ApplyTermsContents(data, cells[0], cells[1], OIE_TERMS);
    }
  }

  /** The first row of `rows` that selects metric `t`, read as its value:
      None when no row selects it. */
  function FirstValue(rows: seq<seq<string>>, t: string): Option<Option<Number>> {
    if rows == [] then None
    else if RowSelects(rows[0], t) then Some(ParseValue(CleanRow(rows[0])[1]))
    else FirstValue(rows[1..], t)
  }

  /** The first selecting row of a + b is the first of a, else the first of b. */
  lemma {:induction false} FirstValueAppend(a: seq<seq<string>>, b: seq<seq<string>>, t: string)
    ensures FirstValue(a + b, t) == if FirstValue(a, t).Some? then FirstValue(a, t) else FirstValue(b, t)
  {
    if a == [] {
      assert a + b == b;
    } else {
      assert (a + b)[0] == a[0];
      assert (a + b)[1..] == a[1..] + b;
      FirstValueAppend(a[1..], b, t);
    }
  }

  /** First match wins: a metric already present is never changed by later
      rows, and a missing metric ends up with the value of the first row that
      selects it, or stays missing when no row does. */
  lemma {:induction false} ExtractRowsFirstMatch(data: Statement, rows: seq<seq<string>>, t: string)
    ensures t in data ==> t in ExtractRows(data, rows) && ExtractRows(data, rows)[t] == data[t]
    ensures t !in data ==> (t in ExtractRows(data, rows) <==> FirstValue(rows, t).Some?)
    ensures t !in data && t in ExtractRows(data, rows) ==> ExtractRows(data, rows)[t] == FirstValue(rows, t).value
  {
    if rows != [] {
      var init := rows[..|rows| - 1];
      var last := rows[|rows| - 1];
      ExtractRowsFirstMatch(data, init, t);
      ApplyRowContents(ExtractRows(data, init), last);
      assert rows == init + [last];
      FirstValueAppend(init, [last], t);
      assert FirstValue([last], t) == if RowSelects(last, t) then Some(ParseValue(CleanRow(last)[1])) else None by {
        assert [last][1..] == [];
      }
    }
  }

  /** Only metric names are ever added to the statement. */
  lemma {:induction false} ExtractRowsKeys(data: Statement, rows: seq<seq<string>>)
    ensures forall t :: t in ExtractRows(data, rows) ==> t in data || IsTerm(OIE_TERMS, t)
  {
    if rows != [] {
      var init := rows[..|rows| - 1];
      ExtractRowsKeys(data, init);
      ApplyRowContents(ExtractRows(data, init), rows[|rows| - 1]);
    }
  }

  // ---------------------------------------------------------------------------
  // Pages of a quarterly filing
  // ---------------------------------------------------------------------------

  /** An HTML element that may head a statement: its tag name, its style
      attribute, its stripped text and whether a table is nested in it. */
  datatype Element = Element(name: string, style: string, text: string, hasTable: bool)

  /** A table: whether its style width exceeds 99.5%, and its rows of cell texts. */
  datatype Table = Table(wide: bool, rows: seq<seq<string>>)

  /** One page of a filing between two page breaks. */
  datatype Page = Page(elements: seq<Element>, tables: seq<Table>)

  const HEADING_TERMS: seq<string> := ["income", "operations", "earnings"]

  /** A centred div or p whose lower-cased text names income, operations or
      earnings, does not say "comprehensive", and holds no table. */
  predicate IsStatementHeading(e: Element) {
    (e.name == "div" || e.name == "p")
    && Occurs("text-align:center", e.style)
    && AnyOccurs(HEADING_TERMS, Lower(e.text))
    && !Occurs("comprehensive", Lower(e.text))
    && !e.hasTable
  }

  /** The heading test ignores the case of the heading's text, and a heading
      that says "comprehensive" never qualifies. */
  lemma HeadingIgnoresCase(e: Element)
    ensures IsStatementHeading(e) <==> IsStatementHeading(e.(text := Lower(e.text)))
    ensures Occurs("comprehensive", Lower(e.text)) ==> !IsStatementHeading(e)
  {
    LowerIdempotent(e.text);
  }

  /** Whether a page is an operations statement page. */
  predicate HasStatementHeading(elements: seq<Element>) {
    exists i :: 0 <= i < |elements| && IsStatementHeading(elements[i])
  }

  /** The first wide table of a page, if any: the one a search in document
      order finds. */
  function FirstWide(tables: seq<Table>): (r: Option<Table>)
    ensures r.Some? ==> r.value.wide && r.value in tables
    ensures r.Some? ==>
      (exists i :: 0 <= i < |tables| && tables[i] == r.value &&
         (forall j :: 0 <= j < i ==> !tables[j].wide))
    ensures r.None? <==> forall i :: 0 <= i < |tables| ==> !tables[i].wide
  {
    if tables == [] then None
    else if tables[0].wide then Some(tables[0])
    else FirstWide(tables[1..])
  }

  /** One page: a statement page with a wide table has its rows read; any
      other page changes nothing. */
  function ExtractPage(data: Statement, page: Page): Statement {
    if !HasStatementHeading(page.elements) then data
    else
      var table := FirstWide(page.tables);
      if table.None? then data else ExtractRows(data, table.value.rows)
  }

  /** The page loop over a filing. */
  function ExtractPages(data: Statement, pages: seq<Page>): Statement {
    if pages == [] then data
    else ExtractPage(ExtractPages(data, pages[..|pages| - 1]), pages[|pages| - 1])
  }

  /** What process_quarterly returns: None when the filing could not be
      fetched, else the statement read from an empty dictionary. */
  function Quarterly(filing: Option<seq<Page>>): Option<Statement> {
    if filing.None? then None else Some(ExtractPages(map[], filing.value))
  }

  /** Metrics found on earlier pages are never changed by later ones, and
      only metric names are added. */
  lemma {:induction false} ExtractPagesKeeps(data: Statement, pages: seq<Page>)
    ensures forall t :: t in data ==> t in ExtractPages(data, pages) && ExtractPages(data, pages)[t] == data[t]
    ensures forall t :: t in ExtractPages(data, pages) ==> t in data || IsTerm(OIE_TERMS, t)
  {
    if pages != [] {
      var init := pages[..|pages| - 1];
      var page := pages[|pages| - 1];
      var d := ExtractPages(data, init);
      ExtractPagesKeeps(data, init);
      var table := FirstWide(page.tables);
      if HasStatementHeading(page.elements) && table.Some? {
        ExtractRowsKeys(d, table.value.rows);
        forall t | t in d
          ensures t in ExtractPage(d, page) && ExtractPage(d, page)[t] == d[t]
        {
          ExtractRowsFirstMatch(d, table.value.rows, t);
        }
      }
    }
  }

  /** The rows process_quarterly reads on one page: those of its first wide
      table when the page has a statement heading, else none. */
  function PageRows(page: Page): seq<seq<string>> {
    if !HasStatementHeading(page.elements) then []
    else
      var table := FirstWide(page.tables);
      if table.None? then [] else table.value.rows
  }

  /** The rows read from every page of a filing, in page order. */
  function StatementRows(pages: seq<Page>): seq<seq<string>> {
    if pages == [] then []
    else StatementRows(pages[..|pages| - 1]) + PageRows(pages[|pages| - 1])
  }

  /** First match wins across pages: a metric missing from `data` ends up
      with the value of the first selecting row among all the statement rows
      of the filing, or stays missing when none selects it. */
  lemma {:induction false} ExtractPagesFirstMatch(data: Statement, pages: seq<Page>, t: string)
    ensures t !in data ==> (t in ExtractPages(data, pages) <==> FirstValue(StatementRows(pages), t).Some?)
    ensures t !in data && t in ExtractPages(data, pages) ==>
      ExtractPages(data, pages)[t] == FirstValue(StatementRows(pages), t).value
  {
    if pages != [] {
      var init := pages[..|pages| - 1];
      var page := pages[|pages| - 1];
      var d := ExtractPages(data, init);
      ExtractPagesFirstMatch(data, init, t);
      assert ExtractPage(d, page) == ExtractRows(d, PageRows(page));
      ExtractRowsFirstMatch(d, PageRows(page), t);
      FirstValueAppend(StatementRows(init), PageRows(page), t);
    }
  }

  /** A fetched quarterly statement holds nothing but the five metrics. */
  lemma QuarterlyKeys(filing: Option<seq<Page>>)
    ensures Quarterly(filing).Some? <==> filing.Some?
    ensures Quarterly(filing).Some? ==> forall t :: t in Quarterly(filing).value ==> IsTerm(OIE_TERMS, t)
  {
    if filing.Some? {
      ExtractPagesKeeps(map[], filing.value);
    }
  }

  /** process_quarterly reads each metric from the first row, over the
      statement pages in order, that selects it; a metric no row selects is
      absent. */
  lemma QuarterlyFirstMatch(pages: seq<Page>, t: string)
    ensures Quarterly(Some(pages)).Some?
    ensures t in Quarterly(Some(pages)).value <==> FirstValue(StatementRows(pages), t).Some?
    ensures t in Quarterly(Some(pages)).value ==>
      Quarterly(Some(pages)).value[t] == FirstValue(StatementRows(pages), t).value
  {
    ExtractPagesFirstMatch(map[], pages, t);
  }

  // ---------------------------------------------------------------------------
  // The filing index
  // ---------------------------------------------------------------------------

  /** One row of the ticker table: a ticker and its central index key. */
  datatype CikRow = CikRow(ticker: string, cik: string)

  /** The key of the first row whose ticker equals `ticker`, if any. */
  function FindCik(table: seq<CikRow>, ticker: string): Option<string> {
    if table == [] then None
    else if table[0].ticker == ticker then Some(table[0].cik)
    else FindCik(table[1..], ticker)
  }

  /** The lookup fails exactly when no row has the ticker; otherwise it gives
      the key of the first row that has it. */
  lemma {:induction false} FindCikFirst(table: seq<CikRow>, ticker: string)
    ensures FindCik(table, ticker).None? <==> forall i :: 0 <= i < |table| ==> table[i].ticker != ticker
    ensures FindCik(table, ticker).Some? ==>
      exists i :: (0 <= i < |table| && table[i].ticker == ticker && FindCik(table, ticker).value == table[i].cik
        && forall j :: 0 <= j < i ==> table[j].ticker != ticker)
  {
    if table != [] && table[0].ticker != ticker {
      var rest := table[1..];
      FindCikFirst(rest, ticker);
      assert forall i :: 0 <= i < |rest| ==> rest[i] == table[i + 1];
      if FindCik(rest, ticker).Some? {
        var i :| 0 <= i < |rest| && rest[i].ticker == ticker && FindCik(rest, ticker).value == rest[i].cik
          && forall j :: 0 <= j < i ==> rest[j].ticker != ticker;
        assert forall j :: 1 <= j < i + 1 ==> table[j] == rest[j - 1];
      }
    } else if table != [] {
      assert table[0].ticker == ticker;
    }
  }

  /** One record of a company's recent filings. */
  datatype Filing = Filing(form: string, reportDate: string, accessionNumber: string)

  /** The metadata is cut to this many records. */
  const RECENT_LIMIT := 25

  predicate IsReport(f: Filing) {
    f.form == "10-K" || f.form == "10-Q"
  }

  /** The records whose form is 10-K or 10-Q, in their order. */
  function Reports(fs: seq<Filing>): seq<Filing> {
    if fs == [] then []
    else (if IsReport(fs[0]) then [fs[0]] else []) + Reports(fs[1..])
  }

  /** A sequence in reverse order. */
  function Reverse<T>(s: seq<T>): seq<T> {
    seq(|s|, i requires 0 <= i < |s| => s[|s| - 1 - i])
  }

  /** The retained metadata: the reports reversed, then their last 25. */
  function Recent(fs: seq<Filing>): seq<Filing> {
    var kept := Reverse(Reports(fs));
    if |kept| > RECENT_LIMIT then kept[|kept| - RECENT_LIMIT..] else kept
  }

  /** The filter keeps exactly the 10-K and 10-Q records. */
  lemma {:induction false} ReportsContents(fs: seq<Filing>)
    ensures |Reports(fs)| <= |fs|
    ensures forall i :: 0 <= i < |Reports(fs)| ==> IsReport(Reports(fs)[i])
    ensures forall f :: f in Reports(fs) <==> f in fs && IsReport(f)
  {
    if fs != [] {
      ReportsContents(fs[1..]);
      assert fs == [fs[0]] + fs[1..];
    }
  }

  /** The filter works record by record: it keeps the order of the records. */
  lemma {:induction false} ReportsAppend(a: seq<Filing>, b: seq<Filing>)
    ensures Reports(a + b) == Reports(a) + Reports(b)
  {
    if a == [] {
      assert a + b == b;
    } else {
      var head := if IsReport(a[0]) then [a[0]] else [];
      assert (a + b)[0] == a[0];
      assert (a + b)[1..] == a[1..] + b;
      ReportsAppend(a[1..], b);
      assert Reports(a + b) == head + (Reports(a[1..]) + Reports(b));
      assert Reports(a) == head + Reports(a[1..]);
    }
  }

  function Min(a: int, b: int): int {
    if a <= b then a else b
  }

  /** The last n of a reversed sequence are its first n, reversed. */
  lemma ReverseSuffix<T>(s: seq<T>, n: nat)
    requires n <= |s|
    ensures Reverse(s)[|s| - n..] == Reverse(s[..n])
  {
    var whole := Reverse(s);
    var front := Reverse(s[..n]);
    var r := whole[|s| - n..];
    forall i | 0 <= i < n
      ensures r[i] == front[i]
    {
      calc {
        r[i];
        whole[|s| - n + i];
        s[n - 1 - i];
        s[..n][n - 1 - i];
        front[i];
      }
    }
  }

  /** The retained metadata holds the first min(25, k) of the k reports
      (newest first in the input) in reverse order, so oldest first. */
  lemma RecentContents(fs: seq<Filing>)
    ensures |Recent(fs)| == Min(RECENT_LIMIT, |Reports(fs)|)
    ensures Recent(fs) == Reverse(Reports(fs)[..Min(RECENT_LIMIT, |Reports(fs)|)])
  {
    var reports := Reports(fs);
    var n := Min(RECENT_LIMIT, |reports|);
    ReverseSuffix(reports, n);
    assert reports[..n] == reports || |reports| > RECENT_LIMIT;
  }

  /** The retained metadata is made of 10-K and 10-Q records only. */
  lemma RecentForms(fs: seq<Filing>)
    ensures forall i :: 0 <= i < |Recent(fs)| ==> IsReport(Recent(fs)[i])
  {
    RecentContents(fs);
    ReportsContents(fs);
    var reports := Reports(fs);
    var n := Min(RECENT_LIMIT, |reports|);
    var r := Recent(fs);
    forall i | 0 <= i < |r|
      ensures IsReport(r[i])
    {
      assert r[i] == reports[..n][n - 1 - i] == reports[n - 1 - i];
    }
  }

  /** process_filings on one record: a 10-Q has its statement stored under
      its report date; a 10-K is skipped. */
  function FileOne(data: map<string, Option<Statement>>, f: Filing, fetch: string -> Option<seq<Page>>): map<string, Option<Statement>> {
    if f.form == "10-Q" then data[f.reportDate := Quarterly(fetch(f.accessionNumber))] else data
  }

  /** process_filings on the first k records. */
  function Filed(data: map<string, Option<Statement>>, md: seq<Filing>, fetch: string -> Option<seq<Page>>, k: nat): map<string, Option<Statement>>
    requires k <= |md|
  {
    if k == 0 then data else FileOne(Filed(data, md, fetch, k - 1), md[k - 1], fetch)
  }

  /** Only the report dates of 10-Q records gain or change an entry, and every
      changed entry is the statement of one of those records. */
  lemma {:induction false} FiledContents(data: map<string, Option<Statement>>, md: seq<Filing>, fetch: string -> Option<seq<Page>>, k: nat)
    requires k <= |md|
    ensures forall d :: d in Filed(data, md, fetch, k) <==>
      d in data || exists i :: 0 <= i < k && md[i].form == "10-Q" && md[i].reportDate == d
    ensures forall d :: d in Filed(data, md, fetch, k) && (d !in data || Filed(data, md, fetch, k)[d] != data[d]) ==>
      exists i :: 0 <= i < k && md[i].form == "10-Q" && md[i].reportDate == d
        && Filed(data, md, fetch, k)[d] == Quarterly(fetch(md[i].accessionNumber))
  {
    if k > 0 {
      FiledContents(data, md, fetch, k - 1);
    }
  }

  /** The last 10-Q record with a given report date leaves its statement
      under that date, overwriting whatever was stored there before. */
  lemma {:induction false} FiledLastWins(data: map<string, Option<Statement>>, md: seq<Filing>, fetch: string -> Option<seq<Page>>, k: nat)
    requires k <= |md|
    ensures forall i ::
      (0 <= i < k && md[i].form == "10-Q" &&
       forall j :: i < j < k && md[j].form == "10-Q" ==> md[j].reportDate != md[i].reportDate) ==>
      md[i].reportDate in Filed(data, md, fetch, k)
        && Filed(data, md, fetch, k)[md[i].reportDate] == Quarterly(fetch(md[i].accessionNumber))
  {
    if k > 0 {
      FiledLastWins(data, md, fetch, k - 1);
    }
  }

  // ---------------------------------------------------------------------------
  // The data object
  // ---------------------------------------------------------------------------

  class Data {
    const ticker: string
    var cik: Option<string>
    /** Statements by report date; None where a filing could not be fetched. */
    var data: map<string, Option<Statement>>
    var metadata: Option<seq<Filing>>

    constructor(ticker: string)
      ensures this.ticker == ticker && cik == None && data == map[] && metadata == None
    {
      this.ticker := ticker;
      cik := None;
      data := map[];
      metadata := None;
    }

    /** Looks the ticker up in the ticker table. No matching row raises in
        the source before anything is assigned: `found` is false and nothing
        changes. */
    method GetCik(table: seq<CikRow>) returns (found: bool)
      modifies this
      ensures found <==> FindCik(table, ticker).Some?
      ensures cik == if found then FindCik(table, ticker) else old(cik)
      ensures data == old(data) && metadata == old(metadata)
    {
      var r := FindCik(table, ticker);
      found := r.Some?;
      if found {
        cik := r;
      }
    }

    /** Stores the recent 10-K/10-Q index from the filings the server sent,
        or, when the request failed (`response` is None), changes nothing. */
    method GetMetadata(response: Option<seq<Filing>>)
      modifies this
      ensures metadata == if response.Some? then Some(Recent(response.value)) else old(metadata)
      ensures cik == old(cik) && data == old(data)
    {
      if response.Some? {
        metadata := Some(Recent(response.value));
      }
    }

    /** Reads the operations statement out of one quarterly filing, given as
        its pages, or None when the filing could not be fetched. */
    method ProcessQuarterly(filing: Option<seq<Page>>) returns (result: Option<Statement>)
      ensures result == Quarterly(filing)
    {
      if filing.None? {
        return None;
      }
      var pages := filing.value;
      var statement: Statement := map[];
      for p := 0 to |pages|
        invariant statement == ExtractPages(map[], pages[..p])
      {
        assert pages[..p + 1][..p] == pages[..p];
        var page := pages[p];
        if HasStatementHeading(page.elements) {
          var table := FirstWide(page.tables);
          if table.Some? {
            var rows := table.value.rows;
            ghost var before := statement;
            for r := 0 to |rows|
              invariant statement == ExtractRows(before, rows[..r])
            {
              assert rows[..r + 1][..r] == rows[..r];
              var cells := CleanRow(rows[r]);
              if |cells| >= 2 {
                var key := cells[0];
                ghost var start := statement;
                for k := 0 to |OIE_TERMS|
                  invariant statement == ApplyTerms(start, key, cells[1], OIE_TERMS[..k])
                {
                  assert OIE_TERMS[..k + 1][..k] == OIE_TERMS[..k];
                  var (term, variations) := OIE_TERMS[k];
                  if AnyOccurs(variations, key) && term !in statement {
                    statement := statement[term := ParseValue(cells[1])];
                  }
                }
                assert OIE_TERMS[..|OIE_TERMS|] == OIE_TERMS;
              }
            }
            assert rows[..|rows|] == rows;
          }
        }
      }
      assert pages[..|pages|] == pages;
      result := Some(statement);
    }

    /** The first two records of the index: each 10-Q has its statement
        stored under its report date. With no index, or fewer than two
        records, the source raises: `ok` is false, and with one record that
        record has been filed first. */
    method ProcessFilings(fetch: string -> Option<seq<Page>>) returns (ok: bool)
      modifies this
      ensures ok <==> old(metadata).Some? && |old(metadata).value| >= 2
      ensures old(metadata).None? ==> data == old(data)
      ensures old(metadata).Some? ==> data == Filed(old(data), old(metadata).value, fetch, Min(2, |old(metadata).value|))
      ensures cik == old(cik) && metadata == old(metadata)
    {
      if metadata.None? {
        return false;
      }
      var md := metadata.value;
      for idx := 0 to 2
        invariant idx <= |md| || idx == 0
        invariant data == Filed(old(data), md, fetch, Min(idx, |md|))
        invariant cik == old(cik) && metadata == old(metadata)
      {
        if idx >= |md| {
          return false;
        }
        var f := md[idx];
        if f.form == "10-Q" {
          var statement := ProcessQuarterly(fetch(f.accessionNumber));
          data := data[f.reportDate := statement];
        }
      }
      ok := true;
    }
  }
}
