/** Exactly which texts the field parser accepts, and what each of them denotes. */
module CronTexts {
  import opened Basics
  import opened Cron
  import opened CronParser

  // ----- Numbers as std::stoi reads them -----

  /** `s` is white space, a sign, digits, and a rest that does not go on with a digit. */
  ghost predicate Spelling(s: string, lead: string, sign: string, digits: string, rest: string) {
    && s == lead + (sign + (digits + rest))
    && (forall c :: c in lead ==> IsSpace(c))
    && (sign == "" || sign == "+" || sign == "-")
    && digits != "" && AllDigits(digits)
    && (rest == "" || !IsDigit(rest[0]))
  }

  function Signed(sign: string, digits: string): int {
    if sign == "-" then -DigitsValue(digits) else DigitsValue(digits)
  }

  /** `s` spells the 32-bit number `v`, possibly with a sign and trailing text. */
  ghost predicate Spells(s: string, v: int) {
    && INT_MIN <= v <= INT_MAX
    && exists lead, sign, digits, rest :: Spelling(s, lead, sign, digits, rest) && v == Signed(sign, digits)
  }

  lemma {:induction false} DigitPrefixOf(digits: string, rest: string)
    requires AllDigits(digits) && (rest == "" || !IsDigit(rest[0]))
    ensures DigitPrefix(digits + rest) == digits
  {
    if digits == "" {
      assert digits + rest == rest;
    } else {
      assert (digits + rest)[1..] == digits[1..] + rest;
      DigitPrefixOf(digits[1..], rest);
    }
  }

  lemma PrefixSpells(s: string, t: string, sign: string, v: int)
    requires s == sign + t && (sign == "" || sign == "+" || sign == "-")
    requires SignedPrefix(t, sign == "-") == Some(v)
    ensures Spells(s, v)
  {
    var digits := DigitPrefix(t);
    var rest := t[|digits|..];
    assert t == digits + rest;
    assert s == "" + (sign + (digits + rest));
    assert Spelling(s, "", sign, digits, rest);
  }

  lemma {:induction false} StoiSpells(s: string, v: int)
    requires Stoi(s) == Some(v)
    ensures Spells(s, v)
  {
    if IsSpace(s[0]) {
      StoiSpells(s[1..], v);
      var lead, sign, digits, rest :| Spelling(s[1..], lead, sign, digits, rest) && v == Signed(sign, digits);
      assert s == ([s[0]] + lead) + (sign + (digits + rest));
      assert Spelling(s, [s[0]] + lead, sign, digits, rest);
    } else if s[0] == '-' || s[0] == '+' {
      assert s == [s[0]] + s[1..];
      PrefixSpells(s, s[1..], [s[0]], v);
    } else {
      assert s == "" + s;
      PrefixSpells(s, s, "", v);
    }
  }

  lemma SignedPrefixOf(digits: string, rest: string, negative: bool)
    requires digits != "" && AllDigits(digits) && (rest == "" || !IsDigit(rest[0]))
    requires INT_MIN <= (if negative then -DigitsValue(digits) else DigitsValue(digits)) <= INT_MAX
    ensures SignedPrefix(digits + rest, negative) == Some(if negative then -DigitsValue(digits) else DigitsValue(digits))
  {
    DigitPrefixOf(digits, rest);
  }

  lemma {:induction false} SpelledIsRead(s: string, lead: string, sign: string, digits: string, rest: string)
    requires Spelling(s, lead, sign, digits, rest) && INT_MIN <= Signed(sign, digits) <= INT_MAX
    ensures Stoi(s) == Some(Signed(sign, digits))
    decreases |lead|
  {
    if lead != "" {
      assert s[0] == lead[0] && s[1..] == lead[1..] + (sign + (digits + rest));
      SpelledIsRead(s[1..], lead[1..], sign, digits, rest);
    } else {
      assert s == sign + (digits + rest);
      SignedPrefixOf(digits, rest, sign == "-");
      if sign == "" {
        assert s == digits + rest && IsDigit(s[0]);
      } else {
        assert s[0] == sign[0] && s[1..] == digits + rest;
      }
    }
  }

  /** The number parser, exactly. */
  lemma StoiExact(s: string, v: int)
    ensures Stoi(s) == Some(v) <==> Spells(s, v)
  {
    if Stoi(s) == Some(v) {
      StoiSpells(s, v);
    }
    if Spells(s, v) {
      var lead, sign, digits, rest :| Spelling(s, lead, sign, digits, rest) && v == Signed(sign, digits);
      SpelledIsRead(s, lead, sign, digits, rest);
    }
  }

  // ----- Tokens -----

  /** `s` is `x`, the separator and `y`, and `x` is free of it. */
  ghost predicate SplitsAt(s: string, c: char, x: string, y: string) {
    s == x + ([c] + y) && c !in x
  }

  lemma FindSplits(s: string, c: char)
    ensures Find(s, c).Some? ==> SplitsAt(s, c, s[..Find(s, c).value], s[Find(s, c).value + 1..])
  {
  }

  lemma SplitFound(s: string, c: char, x: string, y: string)
    requires SplitsAt(s, c, x, y)
    ensures Find(s, c) == Some(|x|) && s[..|x|] == x && s[|x| + 1..] == y
  {
    assert s[|x|] == c && s[..|x|] == x;
    FindUnique(s, c, |x|);
  }

  /** The part before the step: a star, a number, or two numbers with a dash. */
  ghost predicate BaseSpells(base: string, lo: int, hi: int, l: int, h: int) {
    || (base == "*" && l == lo && h == hi)
    || (base != "*" && '-' !in base && Spells(base, l) && h == l)
    || (exists x, y :: SplitsAt(base, '-', x, y) && Spells(x, l) && Spells(y, h))
  }

  lemma DashBase(base: string, lo: int, hi: int, l: int, h: int, x: string, y: string)
    requires SplitsAt(base, '-', x, y)
    ensures ParseBase(base, lo, hi) == Some((l, h)) <==> Spells(x, l) && Spells(y, h)
  {
    SplitFound(base, '-', x, y);
    assert base[|x|] == '-';
    StoiExact(x, l);
    StoiExact(y, h);
  }

  lemma BaseExact(base: string, lo: int, hi: int, l: int, h: int)
    ensures ParseBase(base, lo, hi) == Some((l, h)) <==> BaseSpells(base, lo, hi, l, h)
  {
    if x, y :| SplitsAt(base, '-', x, y) {
      DashBase(base, lo, hi, l, h, x, y);
      assert '-' in base && base != "*" by { assert base[|x|] == '-'; }
      if u, v :| SplitsAt(base, '-', u, v) && Spells(u, l) && Spells(v, h) {
        DashBase(base, lo, hi, l, h, u, v);
      }
    } else {
      FindSplits(base, '-');
      StoiExact(base, l);
    }
  }

  /** What a token spells. */
  ghost predicate TokenSpells(token: string, lo: int, hi: int, span: Span) {
    && token != "" && span.step > 0 && lo <= span.lo <= span.hi <= hi
    && (|| ('/' !in token && span.step == 1 && BaseSpells(token, lo, hi, span.lo, span.hi))
        || (exists base, n :: SplitsAt(token, '/', base, n) && BaseSpells(base, lo, hi, span.lo, span.hi) &&
                              Spells(n, span.step)))
  }

  lemma SteppedToken(token: string, lo: int, hi: int, span: Span, base: string, n: string)
    requires SplitsAt(token, '/', base, n)
    ensures ParseToken(token, lo, hi) == Some(span) <==>
            && span.step > 0 && lo <= span.lo <= span.hi <= hi
            && BaseSpells(base, lo, hi, span.lo, span.hi) && Spells(n, span.step)
  {
    SplitFound(token, '/', base, n);
    StoiExact(n, span.step);
    BaseExact(base, lo, hi, span.lo, span.hi);
  }

  /** The token parser, exactly: these texts are accepted, with these meanings, and no others. */
  lemma TokenExact(token: string, lo: int, hi: int, span: Span)
    ensures ParseToken(token, lo, hi) == Some(span) <==> TokenSpells(token, lo, hi, span)
  {
    if base, n :| SplitsAt(token, '/', base, n) {
      SteppedToken(token, lo, hi, span, base, n);
      assert '/' in token by { assert token[|base|] == '/'; }
      if b, m :| SplitsAt(token, '/', b, m) && BaseSpells(b, lo, hi, span.lo, span.hi) && Spells(m, span.step) {
        SteppedToken(token, lo, hi, span, b, m);
      }
    } else {
      FindSplits(token, '/');
      BaseExact(token, lo, hi, span.lo, span.hi);
    }
  }

  // ----- The documented forms -----

  /** A number followed by anything that does not go on with a digit. */
  lemma DecimalSpells(n: nat, sign: string, rest: string)
    requires n <= INT_MAX && (sign == "" || sign == "+") && (rest == "" || !IsDigit(rest[0]))
    ensures Spells(sign + (Decimal(n) + rest), n)
  {
    DecimalIsDigits(n);
    DecimalRoundTrip(n);
    assert sign + (Decimal(n) + rest) == "" + (sign + (Decimal(n) + rest));
    assert Spelling(sign + (Decimal(n) + rest), "", sign, Decimal(n), rest);
  }

  lemma PlainDecimal(n: nat)
    requires n <= INT_MAX
    ensures Spells(Decimal(n), n)
    ensures forall c :: c in Decimal(n) ==> IsDigit(c)
  {
    DecimalSpells(n, "", "");
    assert "" + (Decimal(n) + "") == Decimal(n);
    DecimalIsDigits(n);
  }

  function RangeText(a: nat, b: nat): string {
    Decimal(a) + (['-'] + Decimal(b))
  }

  function StepText(base: string, n: nat): string {
    base + (['/'] + Decimal(n))
  }

  lemma RangeSpells(a: nat, b: nat, lo: int, hi: int)
    requires a <= INT_MAX && b <= INT_MAX
    ensures BaseSpells(RangeText(a, b), lo, hi, a, b) && '/' !in RangeText(a, b) && RangeText(a, b) != ""
  {
    PlainDecimal(a);
    PlainDecimal(b);
    assert SplitsAt(RangeText(a, b), '-', Decimal(a), Decimal(b));
  }

  lemma StepSpells(base: string, n: nat, lo: int, hi: int, l: int, h: int)
    requires '/' !in base && BaseSpells(base, lo, hi, l, h) && lo <= l <= h <= hi && 1 <= n <= INT_MAX
    ensures ParseToken(StepText(base, n), lo, hi) == Some(Span(l, h, n))
  {
    PlainDecimal(n);
    assert SplitsAt(StepText(base, n), '/', base, Decimal(n));
    SteppedToken(StepText(base, n), lo, hi, Span(l, h, n), base, Decimal(n));
  }

  /** What the documented ranges, steps and numbers denote, in decimal. */
  lemma DocumentedTokens(a: nat, b: nat, n: nat, lo: int, hi: int)
    requires lo <= a <= b <= hi && b <= INT_MAX && 1 <= n <= INT_MAX
    ensures ParseToken(RangeText(a, b), lo, hi) == Some(Span(a, b, 1))
    ensures ParseToken(StepText(RangeText(a, b), n), lo, hi) == Some(Span(a, b, n))
    ensures ParseToken(StepText("*", n), lo, hi) == Some(Span(lo, hi, n))
    ensures ParseToken(Decimal(a), lo, hi) == Some(Span(a, a, 1))
  {
    RangeSpells(a, b, lo, hi);
    TokenExact(RangeText(a, b), lo, hi, Span(a, b, 1));
    StepSpells(RangeText(a, b), n, lo, hi, a, b);
    StepSpells("*", n, lo, hi, lo, hi);
    NumberToken(a, lo, hi);
  }

  /** Every accepted token, however spelled, means what a documented one means. */
  lemma SameAsDocumented(token: string, lo: nat, hi: int)
    requires ParseToken(token, lo, hi).Some? && hi <= INT_MAX
    ensures var span := ParseToken(token, lo, hi).value;
            ParseToken(StepText(RangeText(span.lo, span.hi), span.step), lo, hi) == Some(span)
  {
    var span := ParseToken(token, lo, hi).value;
    TokenExact(token, lo, hi, span);
    DocumentedTokens(span.lo, span.hi, span.step, lo, hi);
  }

  // ----- Fields -----

  /** Texts with a comma between them. */
  function CommaJoin(ts: seq<string>): string
    requires ts != []
  {
    if |ts| == 1 then ts[0] else ts[0] + "," + CommaJoin(ts[1..])
  }

  /** A field is cut at its commas, empty pieces included, except that nothing follows a last comma. */
  lemma {:induction false} TokensOfJoin(ts: seq<string>)
    requires ts != [] && forall i :: 0 <= i < |ts| ==> ',' !in ts[i]
    ensures Tokens(CommaJoin(ts)) == if ts[|ts| - 1] == "" then ts[..|ts| - 1] else ts
    decreases |ts|
  {
    if |ts| == 1 {
      assert ts == [ts[0]];
      assert ts[0] == "" ==> ts[..0] == [];
    } else {
      TokensCons(ts[0], CommaJoin(ts[1..]));
      TokensOfJoin(ts[1..]);
      ConsKept(ts);
    }
  }

  lemma TokensCons(first: string, rest: string)
    requires ',' !in first
    ensures Tokens(first + "," + rest) == [first] + Tokens(rest)
  {
    var s := first + "," + rest;
    assert s[..|first|] == first && s[|first|] == ',' && s[|first| + 1..] == rest;
    FindUnique(s, ',', |first|);
  }

  lemma ConsKept(ts: seq<string>)
    requires |ts| > 1
    ensures var tail := ts[1..];
            && tail[|tail| - 1] == ts[|ts| - 1]
            && [ts[0]] + tail == ts && [ts[0]] + tail[..|tail| - 1] == ts[..|ts| - 1]
  {
  }

  /** So an empty piece anywhere but at the very end makes a field malformed. */
  lemma EmptyPieceRejected(ts: seq<string>, i: nat, lo: int, hi: int)
    requires i < |ts| - 1 && ts[i] == "" && forall k :: 0 <= k < |ts| ==> ',' !in ts[k]
    ensures FieldValue(CommaJoin(ts), lo, hi) == None
  {
    TokensOfJoin(ts);
    var tokens := Tokens(CommaJoin(ts));
    assert tokens[i] == "" && ParseToken(tokens[i], lo, hi) == None;
    FieldExact(CommaJoin(ts), lo, hi);
  }

  // ----- Further texts -----

  /** A number may carry a plus sign, and trailing text without dash or slash: "+5", "1x". */
  lemma SloppyNumber(n: nat, sign: string, rest: string, lo: int, hi: int)
    requires lo <= n <= hi && n <= INT_MAX && (sign == "" || sign == "+")
    requires '-' !in rest && '/' !in rest && (rest == "" || !IsDigit(rest[0]))
    ensures ParseToken(sign + (Decimal(n) + rest), lo, hi) == Some(Span(n, n, 1))
  {
    var token := sign + (Decimal(n) + rest);
    DecimalSpells(n, sign, rest);
    PlainDecimal(n);
    DecimalIsDigits(n);
    assert '-' !in token && '/' !in token;
    assert token != "*" by {
      assert Decimal(n)[0] in token && "*"[0] == '*';
    }
    TokenExact(token, lo, hi, Span(n, n, 1));
  }

  /** One trailing comma changes nothing: "5,". */
  lemma {:induction false} TrailingComma(field: string)
    requires field != "" && field[|field| - 1] != ','
    ensures Tokens(field + ",") == Tokens(field)
    decreases |field|
  {
    match Find(field, ',')
    case None =>
      assert (field + ",")[..|field|] == field && (field + ",")[|field| + 1..] == "";
      FindUnique(field + ",", ',', |field|);
    case Some(i) =>
      var rest := field[i + 1..];
      assert (field + ",")[..i] == field[..i] && (field + ",")[i + 1..] == rest + ",";
      FindUnique(field + ",", ',', i);
      TrailingComma(rest);
  }

  lemma TrailingCommaAccepted(field: string, lo: int, hi: int)
    requires field != "" && field[|field| - 1] != ','
    ensures FieldValue(field + ",", lo, hi) == FieldValue(field, lo, hi)
  {
    TrailingComma(field);
  }
}
