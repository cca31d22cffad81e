/** The five-field cron text: field parser, expression parser and what the texts denote. */
module CronParser {
  import opened Basics
  import opened Cron

  const INT_MIN := -0x8000_0000
  const INT_MAX := 0x7fff_ffff

  predicate IsSpace(c: char) {
    c == ' ' || 9 <= c as int <= 13
  }

  /** The pieces std::getline(',') delivers: a single trailing comma adds no piece. */
  function Tokens(field: string): seq<string>
    decreases |field|
  {
    if field == "" then []
    else
      match Find(field, ',')
      case None => [field]
      case Some(i) => [field[..i]] + Tokens(field[i + 1..])
  }

  /** The longest run of digits at the front of `s`. */
  function DigitPrefix(s: string): (p: string)
    ensures p <= s
    ensures forall i :: 0 <= i < |p| ==> IsDigit(p[i])
    ensures |p| < |s| ==> !IsDigit(s[|p|])
  {
    if s == "" || !IsDigit(s[0]) then ""
    else [s[0]] + DigitPrefix(s[1..])
  }

  /** Digits at the front of `s`, negated on demand; None where std::stoi throws. */
  function SignedPrefix(s: string, negative: bool): Option<int> {
    var digits := DigitPrefix(s);
    if digits == "" then None
    else
      var n := DigitsValue(digits);
      var v := if negative then -n else n;
      if INT_MIN <= v <= INT_MAX then Some(v) else None
  }

  /** std::stoi: leading white space, an optional sign, digits; trailing text is ignored. */
  function Stoi(s: string): Option<int> {
    if s == "" then None
    else if IsSpace(s[0]) then Stoi(s[1..])
    else if s[0] == '-' then SignedPrefix(s[1..], true)
    else if s[0] == '+' then SignedPrefix(s[1..], false)
    else SignedPrefix(s, false)
  }

  /** What one accepted token stands for: every `step`-th value of lo..hi. */
  datatype Span = Span(lo: int, hi: int, step: int) {
    predicate Has(v: int)
      requires step > 0
    {
      lo <= v <= hi && (v - lo) % step == 0
    }

    ghost function Values(): set<int>
      requires step > 0
    {
      set v | lo <= v <= hi && Has(v)
    }
  }

  function ParseBase(base: string, lo: int, hi: int): Option<(int, int)> {
    if base == "*" then Some((lo, hi))
    else
      match Find(base, '-')
      case Some(dash) => (
        match (Stoi(base[..dash]), Stoi(base[dash + 1..]))
        case (Some(l), Some(h)) => Some((l, h))
        case _ => None)
      case None =>
        match Stoi(base)
        case Some(v) => Some((v, v))
        case None => None
  }

  function ParseToken(token: string, lo: int, hi: int): (r: Option<Span>)
    ensures r.Some? ==> lo <= r.value.lo <= r.value.hi <= hi && r.value.step > 0
  {
    var slash := Find(token, '/');
    var step := if slash.None? then Some(1) else Stoi(token[slash.value + 1..]);
    var base := if slash.None? then token else token[..slash.value];
    if token == "" || step.None? || step.value <= 0 then None
    else
      match ParseBase(base, lo, hi)
      case None => None
      case Some((l, h)) => if l < lo || h > hi || l > h then None else Some(Span(l, h, step.value))
  }

  ghost function TokensValue(tokens: seq<string>, lo: int, hi: int): Option<set<int>> {
    if tokens == [] then Some({})
    else
      match (ParseToken(tokens[0], lo, hi), TokensValue(tokens[1..], lo, hi))
      case (Some(span), Some(rest)) => Some(span.Values() + rest)
      case _ => None
  }

  /** The set a field denotes, or None when the parser rejects it. */
  ghost function FieldValue(field: string, lo: int, hi: int): Option<set<int>> {
    match TokensValue(Tokens(field), lo, hi)
    case Some(vs) => if vs == {} then None else Some(vs)
    case None => None
  }

  lemma MultipleSteps(m: int, k: int)
    requires m > 0
    ensures k >= 1 ==> m * k >= m
    ensures k <= -1 ==> m * k <= -m
  {
  }

  /** Between two neighbouring members of a span there is no other one. */
  lemma NextInSpan(span: Span, v: int, x: int)
    requires span.step > 0 && (v - span.lo) % span.step == 0
    ensures (v + span.step - span.lo) % span.step == 0
    ensures v <= x < v + span.step && (x - span.lo) % span.step == 0 ==> x == v
  {
    var m, a, b, c := span.step, v - span.lo, x - span.lo, v + span.step - span.lo;
    assert a == m * (a / m) + a % m && b == m * (b / m) + b % m && c == m * (c / m) + c % m;
    MultipleSteps(m, b / m - a / m);
    MultipleSteps(m, a / m + 1 - c / m);
    assert m * (b / m - a / m) == m * (b / m) - m * (a / m);
    assert m * (a / m + 1 - c / m) == m * (a / m) + m - m * (c / m);
  }

  ghost function Below(span: Span, v: int): set<int>
    requires span.step > 0
  {
    set x | span.lo <= x <= span.hi && x < v && span.Has(x)
  }

  lemma BelowNext(span: Span, v: int)
    requires span.step > 0 && span.lo <= v <= span.hi && (v - span.lo) % span.step == 0
    ensures Below(span, v + span.step) == Below(span, v) + {v}
  {
    forall x ensures x in Below(span, v + span.step) <==> x in Below(span, v) + {v} {
      NextInSpan(span, v, x);
    }
  }

  /** The insertion loop of one token adds exactly the token's values. */
  method InsertSpan(out: set<int>, span: Span) returns (r: set<int>)
    requires span.step > 0
    ensures r == out + span.Values()
  {
    r := out;
    var v := span.lo;
    while v <= span.hi
      invariant span.lo <= v && (v - span.lo) % span.step == 0
      invariant r == out + Below(span, v)
      decreases span.hi - v
    {
      BelowNext(span, v);
      NextInSpan(span, v, v);
      r := r + {v};
      v := v + span.step;
    }
    assert Below(span, v) == span.Values();
  }

  ghost function Joined(out: set<int>, rest: Option<set<int>>): Option<set<int>> {
    match rest
    case None => None
    case Some(vs) => Some(out + vs)
  }

  function FirstToken(rest: string): string {
    match Find(rest, ',')
    case None => rest
    case Some(i) => rest[..i]
  }

  function AfterToken(rest: string): (after: string)
    requires rest != ""
    ensures |after| < |rest|
  {
    match Find(rest, ',')
    case None => ""
    case Some(i) => rest[i + 1..]
  }

  /** Taking one token off the front. */
  lemma TokenOff(rest: string, lo: int, hi: int)
    requires rest != ""
    ensures TokensValue(Tokens(rest), lo, hi) ==
            match ParseToken(FirstToken(rest), lo, hi)
            case None => None
            case Some(span) => Joined(span.Values(), TokensValue(Tokens(AfterToken(rest)), lo, hi))
  {
    assert Tokens(rest) == [FirstToken(rest)] + Tokens(AfterToken(rest));
    assert Tokens(rest)[1..] == Tokens(AfterToken(rest));
  }

  lemma JoinedTwice(a: set<int>, b: set<int>, rest: Option<set<int>>)
    ensures Joined(a, Joined(b, rest)) == Joined(a + b, rest) && Joined({}, rest) == rest && Joined(a, Some({})) == Some(a)
  {
    assert a + {} == a;
    match rest
    case None =>
    case Some(vs) => assert a + (b + vs) == (a + b) + vs && {} + vs == vs;
  }

  /** The field parser computes `FieldValue`. */
  method ParseField(field: string, lo: int, hi: int) returns (ok: bool, out: set<int>, wildcard: bool)
    ensures wildcard <==> field == "*"
    ensures ok <==> FieldValue(field, lo, hi).Some?
    ensures ok ==> FieldValue(field, lo, hi) == Some(out)
  {
    wildcard := field == "*";
    out := {};
    var rest := field;
    ghost var whole := TokensValue(Tokens(field), lo, hi);
    JoinedTwice({}, {}, whole);
    while rest != ""
      invariant whole == Joined(out, TokensValue(Tokens(rest), lo, hi))
      decreases |rest|
    {
      TokenOff(rest, lo, hi);
      var span := ParseToken(FirstToken(rest), lo, hi);
      rest := AfterToken(rest);
      if span.None? {
        return false, out, wildcard;
      }
      JoinedTwice(out, span.value.Values(), TokensValue(Tokens(rest), lo, hi));
      out := InsertSpan(out, span.value);
    }
    JoinedTwice(out, {}, None);
    ok := out != {};
  }

  /** Every accepted field denotes the union of its tokens' spans; it is accepted exactly when
      it has a token and every token is well formed, and its values are in range. */
  lemma FieldExact(field: string, lo: int, hi: int)
    ensures FieldValue(field, lo, hi).Some? <==>
            Tokens(field) != [] && forall i :: 0 <= i < |Tokens(field)| ==> ParseToken(Tokens(field)[i], lo, hi).Some?
    ensures FieldValue(field, lo, hi).Some? ==>
              var vs := FieldValue(field, lo, hi).value;
              && vs != {}
              && (forall v :: v in vs ==> lo <= v <= hi)
              && (forall v :: v in vs <==> exists i :: 0 <= i < |Tokens(field)| &&
                                                       v in ParseToken(Tokens(field)[i], lo, hi).value.Values())
  {
    var tokens := Tokens(field);
    TokensExact(tokens, lo, hi);
    if tokens != [] && ParseToken(tokens[0], lo, hi).Some? {
      var span := ParseToken(tokens[0], lo, hi).value;
      assert span.lo in span.Values();
    }
  }

  lemma {:induction false} TokensExact(tokens: seq<string>, lo: int, hi: int)
    ensures TokensValue(tokens, lo, hi).Some? <==>
            forall i :: 0 <= i < |tokens| ==> ParseToken(tokens[i], lo, hi).Some?
    ensures TokensValue(tokens, lo, hi).Some? ==>
              forall v :: v in TokensValue(tokens, lo, hi).value <==>
                          exists i :: 0 <= i < |tokens| && v in ParseToken(tokens[i], lo, hi).value.Values()
  {
    if tokens != [] {
      var tail := tokens[1..];
      TokensExact(tail, lo, hi);
      assert forall i :: 0 <= i < |tail| ==> tail[i] == tokens[i + 1];
      assert forall i :: 0 < i < |tokens| ==> tokens[i] == tail[i - 1];
    }
  }

  predicate Between(v: int, lo: int, hi: int) { lo <= v <= hi }

  /** All the integers from lo to hi. */
  function Range(lo: int, hi: int): set<int> {
    set v | lo <= v <= hi && Between(v, lo, hi)
  }

  lemma StarIsFullRange(lo: int, hi: int)
    requires lo <= hi
    ensures FieldValue("*", lo, hi) == Some(Range(lo, hi))
  {
    assert Find("*", ',') == None && Find("*", '/') == None;
    assert Tokens("*") == ["*"];
    var span := Span(lo, hi, 1);
    assert ParseToken("*", lo, hi) == Some(span);
    assert span.Values() == Range(lo, hi);
    assert TokensValue([], lo, hi) == Some({});
    assert TokensValue(["*"], lo, hi) == Some(span.Values() + {});
    assert span.Values() + {} == span.Values();
    assert lo in span.Values();
  }

  /** White-space separated words of an expression. */
  function WordLength(s: string): (n: nat)
    ensures n <= |s|
    ensures forall i :: 0 <= i < n ==> !IsSpace(s[i])
    ensures n < |s| ==> IsSpace(s[n])
  {
    if s == "" || IsSpace(s[0]) then 0 else 1 + WordLength(s[1..])
  }

  function Words(s: string): seq<string>
    decreases |s|
  {
    if s == "" then []
    else if IsSpace(s[0]) then Words(s[1..])
    else [s[..WordLength(s)]] + Words(s[WordLength(s)..])
  }

  /** The value ranges of minute, hour, day of month, month and day of week. */
  function FieldLo(i: nat): nat {
    if i == 2 || i == 3 then 1 else 0
  }

  function FieldHi(i: nat): nat {
    if i == 0 then 59 else if i == 1 then 23 else if i == 2 then 31 else if i == 3 then 12 else 7
  }

  ghost predicate FieldOk(parts: seq<string>, i: nat)
    requires i < |parts| && |parts| == 5
  {
    FieldValue(parts[i], FieldLo(i), FieldHi(i)).Some?
  }

  ghost function FieldSet(parts: seq<string>, i: nat): set<int>
    requires i < |parts| && |parts| == 5 && FieldOk(parts, i)
  {
    FieldValue(parts[i], FieldLo(i), FieldHi(i)).value
  }

  function SundayNormalised(dows: set<int>): set<int> {
    if 7 in dows then dows + {0} else dows
  }

  /** The schedule an expression denotes, or None when it is malformed. */
  ghost function ExpressionValue(expr: string): Option<CronSchedule> {
    var parts := Words(expr);
    if |parts| == 5 && (forall i :: 0 <= i < 5 ==> FieldOk(parts, i)) then
      Some(CronSchedule(FieldSet(parts, 0), FieldSet(parts, 1), FieldSet(parts, 2), FieldSet(parts, 3),
                        SundayNormalised(FieldSet(parts, 4)), parts[2] == "*", parts[4] == "*"))
    else None
  }

  /** The five field sets and the two wildcard flags, or failure at the first malformed field. */
  method ParseFields(parts: seq<string>) returns (ok: bool, fields: seq<set<int>>, domWildcard: bool, dowWildcard: bool)
    requires |parts| == 5
    ensures ok <==> forall i :: 0 <= i < 5 ==> FieldOk(parts, i)
    ensures ok ==> |fields| == 5 && forall i :: 0 <= i < 5 ==> fields[i] == FieldSet(parts, i)
    ensures ok ==> domWildcard == (parts[2] == "*") && dowWildcard == (parts[4] == "*")
  {
    fields := [];
    domWildcard, dowWildcard := true, true;
    var i := 0;
    while i < 5
      invariant 0 <= i <= 5 && |fields| == i
      invariant forall j :: 0 <= j < i ==> FieldOk(parts, j) && fields[j] == FieldSet(parts, j)
      invariant i > 2 ==> domWildcard == (parts[2] == "*")
      invariant i > 4 ==> dowWildcard == (parts[4] == "*")
    {
      var good, values, wildcard := ParseField(parts[i], FieldLo(i), FieldHi(i));
      if !good {
        assert !FieldOk(parts, i);
        return false, fields, domWildcard, dowWildcard;
      }
      fields := fields + [values];
      if i == 2 { domWildcard := wildcard; }
      if i == 4 { dowWildcard := wildcard; }
      i := i + 1;
    }
    ok := true;
  }

  /** The expression parser computes `ExpressionValue`. */
  method Parse(expr: string) returns (r: Option<CronSchedule>)
    ensures r == ExpressionValue(expr)
  {
    var parts := Words(expr);
    if |parts| != 5 {
      return None;
    }
    var ok, fields, domWildcard, dowWildcard := ParseFields(parts);
    if !ok {
      return None;
    }
    var dows := fields[4];
    if 7 in dows {
      dows := dows + {0};
    }
    r := Some(CronSchedule(fields[0], fields[1], fields[2], fields[3], dows, domWildcard, dowWildcard));
  }

  /** A broken-down time whose day fields are those of a calendar. */
  ghost predicate CalendarTm(tm: Tm) {
    1 <= tm.mday <= 31 && 0 <= tm.wday <= 6
  }

  /** The code's ladder over the two wildcard flags, when a wildcard field holds its full range. */
  lemma LadderIsDayRule(s: CronSchedule, dows: set<int>, tm: Tm)
    requires CalendarTm(tm) && s.dows == SundayNormalised(dows)
    requires s.domWildcard ==> s.doms == Range(1, 31)
    requires s.dowWildcard ==> dows == Range(0, 7)
    ensures
      var domOk := tm.mday in s.doms;
      var dowOk := tm.wday in dows || (tm.wday == 0 && 7 in dows);
      Matches(s, tm) <==>
      && tm.min in s.minutes
      && tm.hour in s.hours
      && tm.mon + 1 in s.months
      && if !s.domWildcard && !s.dowWildcard then domOk || dowOk else domOk && dowOk
  {
  }

  /** The five sets an accepted expression spells out, before Sunday is normalised. */
  ghost function RawFields(expr: string): (f: seq<set<int>>)
    requires ExpressionValue(expr).Some?
    ensures |f| == 5
  {
    var parts := Words(expr);
    [FieldSet(parts, 0), FieldSet(parts, 1), FieldSet(parts, 2), FieldSet(parts, 3), FieldSet(parts, 4)]
  }

  /** The standard cron day rule for every parsed expression: minute, hour and month are always
      required; the two day fields are alternatives when both are restricted and conditions
      otherwise; 7 stands for Sunday. Only the bare "*" counts as unrestricted. */
  lemma DayRule(expr: string, tm: Tm)
    requires ExpressionValue(expr).Some? && CalendarTm(tm)
    ensures
      var parts, f := Words(expr), RawFields(expr);
      var domOk := tm.mday in f[2];
      var dowOk := tm.wday in f[4] || (tm.wday == 0 && 7 in f[4]);
      && |parts| == 5
      && (Matches(ExpressionValue(expr).value, tm) <==>
          && tm.min in f[0]
          && tm.hour in f[1]
          && tm.mon + 1 in f[3]
          && if parts[2] != "*" && parts[4] != "*" then domOk || dowOk else domOk && dowOk)
  {
    var parts, f := Words(expr), RawFields(expr);
    FieldInRange(parts, 2);
    FieldInRange(parts, 4);
    LadderIsDayRule(ExpressionValue(expr).value, f[4], tm);
  }

  // ----- Printing a set and reading it back -----

  /** A comma list of decimal numbers. */
  function CommaList(xs: seq<nat>): string
    requires xs != []
  {
    if |xs| == 1 then Decimal(xs[0]) else Decimal(xs[0]) + "," + CommaList(xs[1..])
  }

  /** The members of `vs` between lo and hi, in increasing order. */
  function Ascending(vs: set<int>, lo: nat, hi: int): (xs: seq<nat>)
    ensures forall x :: x in xs <==> lo <= x <= hi && x in vs
    decreases hi - lo
  {
    if lo > hi then []
    else (if lo in vs then [lo] else []) + Ascending(vs, lo + 1, hi)
  }

  lemma {:induction false} DigitsAreTheirPrefix(s: string)
    requires AllDigits(s)
    ensures DigitPrefix(s) == s
  {
    if s != "" {
      DigitsAreTheirPrefix(s[1..]);
    }
  }

  lemma StoiDecimal(n: nat)
    requires n <= INT_MAX
    ensures Stoi(Decimal(n)) == Some(n)
  {
    DecimalIsDigits(n);
    DigitsAreTheirPrefix(Decimal(n));
    DecimalRoundTrip(n);
    assert IsDigit(Decimal(n)[0]);
  }

  lemma NumberToken(n: nat, lo: int, hi: int)
    requires lo <= n <= hi && n <= INT_MAX
    ensures ParseToken(Decimal(n), lo, hi) == Some(Span(n, n, 1))
  {
    var s := Decimal(n);
    DecimalIsDigits(n);
    assert IsDigit(s[0]);
    assert forall c :: c in s ==> IsDigit(c);
    assert Find(s, '/') == None && Find(s, '-') == None;
    assert s != "*" by { assert "*"[0] == '*'; }
    StoiDecimal(n);
  }

  lemma TokenBeforeComma(d: string, rest: string)
    requires d != "" && ',' !in d
    ensures Tokens(d) == [d]
    ensures Tokens(d + "," + rest) == [d] + Tokens(rest)
  {
    var s := d + "," + rest;
    assert s[..|d|] == d && s[|d|] == ',' && s[|d| + 1..] == rest;
    FindUnique(s, ',', |d|);
  }

  lemma OneNumber(n: nat, tail: seq<string>, lo: int, hi: int)
    requires lo <= n <= hi && n <= INT_MAX && TokensValue(tail, lo, hi).Some?
    ensures TokensValue([Decimal(n)] + tail, lo, hi) == Some({n} + TokensValue(tail, lo, hi).value)
  {
    NumberToken(n, lo, hi);
    assert Span(n, n, 1).Values() == {n};
    assert ([Decimal(n)] + tail)[1..] == tail;
  }

  function Members(xs: seq<nat>): set<int> {
    set x: int | x in xs
  }

  lemma {:induction false} TokensOfCommaList(xs: seq<nat>, lo: int, hi: int)
    requires xs != []
    requires forall i :: 0 <= i < |xs| ==> lo <= xs[i] <= hi && xs[i] <= INT_MAX
    ensures TokensValue(Tokens(CommaList(xs)), lo, hi) == Some(Members(xs))
  {
    var d := Decimal(xs[0]);
    assert d != "" && ',' !in d by { DecimalIsDigits(xs[0]); }
    assert Members(xs) == {xs[0] as int} + Members(xs[1..]) by {
      assert xs == [xs[0]] + xs[1..];
    }
    if |xs| == 1 {
      TokenBeforeComma(d, "");
      assert [d] + [] == [d];
      OneNumber(xs[0], [], lo, hi);
      assert TokensValue([], lo, hi) == Some({}) && Members(xs[1..]) == {};
    } else {
      TokensOfCommaList(xs[1..], lo, hi);
      TokenBeforeComma(d, CommaList(xs[1..]));
      OneNumber(xs[0], Tokens(CommaList(xs[1..])), lo, hi);
    }
  }

  /** A decimal number in range denotes itself, and is a word of its own. */
  lemma NumberField(n: nat, lo: int, hi: int)
    requires lo <= n <= hi && n <= INT_MAX
    ensures FieldValue(Decimal(n), lo, hi) == Some({n as int}) && IsWord(Decimal(n))
  {
    TokensOfCommaList([n], lo, hi);
    assert CommaList([n]) == Decimal(n);
    assert Members([n]) == {n as int};
    DecimalIsDigits(n);
  }

  /** Every non-empty subset of a field's range, printed as a comma list, parses back to itself. */
  lemma FieldRoundTrip(vs: set<int>, lo: nat, hi: int)
    requires vs != {} && hi <= INT_MAX
    requires forall v :: v in vs ==> lo <= v <= hi
    ensures Ascending(vs, lo, hi) != []
    ensures FieldValue(CommaList(Ascending(vs, lo, hi)), lo, hi) == Some(vs)
  {
    var xs := Ascending(vs, lo, hi);
    var v :| v in vs;
    assert v in xs;
    assert forall i :: 0 <= i < |xs| ==> xs[i] in xs;
    TokensOfCommaList(xs, lo, hi);
    assert Members(xs) == vs;
  }

  lemma {:induction false} CommaListChars(xs: seq<nat>)
    requires xs != []
    ensures CommaList(xs) != "" && IsDigit(CommaList(xs)[0])
    ensures forall c :: c in CommaList(xs) ==> IsDigit(c) || c == ','
  {
    var d := Decimal(xs[0]);
    DecimalIsDigits(xs[0]);
    if |xs| > 1 {
      CommaListChars(xs[1..]);
    }
  }

  lemma {:induction false} WordLengthOf(w: string, rest: string)
    requires forall c :: c in w ==> !IsSpace(c)
    requires rest == "" || IsSpace(rest[0])
    ensures WordLength(w + rest) == |w|
  {
    if w == "" {
      assert w + rest == rest;
    } else {
      assert (w + rest)[1..] == w[1..] + rest;
      WordLengthOf(w[1..], rest);
    }
  }

  predicate IsWord(w: string) {
    w != "" && forall c :: c in w ==> !IsSpace(c)
  }

  function Spaced(w: string, rest: string): string {
    w + (" " + rest)
  }

  lemma FirstWord(w: string, rest: string)
    requires IsWord(w)
    ensures Words(w) == [w]
    ensures Words(Spaced(w, rest)) == [w] + Words(rest)
  {
    assert w + "" == w;
    WordLengthOf(w, "");
    assert w[..|w|] == w && w[|w|..] == "";
    WordLengthOf(w, " " + rest);
    var s := Spaced(w, rest);
    assert s[..|w|] == w && s[|w|..] == " " + rest;
    assert (" " + rest)[1..] == rest;
  }

  ghost predicate PrintableField(f: set<int>, i: nat)
    requires i < 5
  {
    f != {} && forall v :: v in f ==> FieldLo(i) <= v <= FieldHi(i)
  }

  /** The comma-list text of field `i`. */
  ghost function FieldText(f: set<int>, i: nat): (s: string)
    requires i < 5 && PrintableField(f, i)
    ensures IsWord(s) && s != "*"
    ensures FieldValue(s, FieldLo(i), FieldHi(i)) == Some(f)
  {
    FieldRoundTrip(f, FieldLo(i), FieldHi(i));
    CommaListChars(Ascending(f, FieldLo(i), FieldHi(i)));
    CommaList(Ascending(f, FieldLo(i), FieldHi(i)))
  }

  /** Words with a space between them. */
  function Join(words: seq<string>): string
    requires words != []
  {
    if |words| == 1 then words[0] else Spaced(words[0], Join(words[1..]))
  }

  lemma {:induction false} WordsOfJoin(words: seq<string>)
    requires words != [] && forall i :: 0 <= i < |words| ==> IsWord(words[i])
    ensures Words(Join(words)) == words
  {
    FirstWord(words[0], if |words| == 1 then "" else Join(words[1..]));
    if |words| > 1 {
      WordsOfJoin(words[1..]);
    }
  }

  lemma ExpressionFromParts(expr: string, parts: seq<string>, f: seq<set<int>>)
    requires Words(expr) == parts && |parts| == 5 && |f| == 5
    requires forall i :: 0 <= i < 5 ==> FieldOk(parts, i) && FieldSet(parts, i) == f[i]
    ensures ExpressionValue(expr) ==
            Some(CronSchedule(f[0], f[1], f[2], f[3], SundayNormalised(f[4]), parts[2] == "*", parts[4] == "*"))
  {
  }

  lemma ExpressionOfFive(f: seq<set<int>>, t: seq<string>)
    requires |f| == 5 && |t| == 5
    requires forall i :: 0 <= i < 5 ==> IsWord(t[i]) && FieldValue(t[i], FieldLo(i), FieldHi(i)) == Some(f[i])
    ensures ExpressionValue(Join(t)) ==
            Some(CronSchedule(f[0], f[1], f[2], f[3], SundayNormalised(f[4]), t[2] == "*", t[4] == "*"))
  {
    WordsOfJoin(t);
    ExpressionFromParts(Join(t), t, f);
  }

  lemma JoinNext(t: seq<string>, i: nat)
    requires i + 1 < |t|
    ensures Join(t[i..]) == Spaced(t[i], Join(t[i + 1..]))
  {
    assert t[i..][1..] == t[i + 1..];
  }

  lemma JoinFive(t: seq<string>)
    requires |t| == 5
    ensures Join(t) == Spaced(t[0], Spaced(t[1], Spaced(t[2], Spaced(t[3], t[4]))))
  {
    assert t[0..] == t && Join(t[4..]) == t[4];
    JoinNext(t, 3);
    JoinNext(t, 2);
    JoinNext(t, 1);
    JoinNext(t, 0);
  }

  ghost function FieldTexts(f: seq<set<int>>): (t: seq<string>)
    requires |f| == 5 && forall i :: 0 <= i < 5 ==> PrintableField(f[i], i)
    ensures |t| == 5 && forall i :: 0 <= i < 5 ==> t[i] == FieldText(f[i], i)
  {
    [FieldText(f[0], 0), FieldText(f[1], 1), FieldText(f[2], 2), FieldText(f[3], 3), FieldText(f[4], 4)]
  }

  /** The expression whose five fields are comma lists of these sets. */
  ghost function ExpressionText(f: seq<set<int>>): string
    requires |f| == 5 && forall i :: 0 <= i < 5 ==> PrintableField(f[i], i)
  {
    Join(FieldTexts(f))
  }

  /** Any five printable sets, printed as an expression, parse back to that schedule. */
  lemma ExpressionRoundTrip(f: seq<set<int>>)
    requires |f| == 5 && forall i :: 0 <= i < 5 ==> PrintableField(f[i], i)
    ensures ExpressionValue(ExpressionText(f)) ==
            Some(CronSchedule(f[0], f[1], f[2], f[3], SundayNormalised(f[4]), false, false))
  {
    ExpressionOfFive(f, FieldTexts(f));
  }

  /** What the rest of the system may rely on about a parsed schedule. */
  ghost predicate WellFormed(s: CronSchedule) {
    && s.minutes != {} && s.minutes <= Range(0, 59)
    && s.hours != {} && s.hours <= Range(0, 23)
    && s.doms != {} && s.doms <= Range(1, 31)
    && s.months != {} && s.months <= Range(1, 12)
    && s.dows != {} && s.dows <= Range(0, 7) && (7 in s.dows ==> 0 in s.dows)
    && (s.domWildcard ==> s.doms == Range(1, 31))
    && (s.dowWildcard ==> s.dows == Range(0, 7))
  }

  lemma FieldInRange(parts: seq<string>, i: nat)
    requires i < |parts| && |parts| == 5 && FieldOk(parts, i)
    ensures FieldSet(parts, i) != {} && FieldSet(parts, i) <= Range(FieldLo(i), FieldHi(i))
    ensures parts[i] == "*" ==> FieldSet(parts, i) == Range(FieldLo(i), FieldHi(i))
  {
    FieldExact(parts[i], FieldLo(i), FieldHi(i));
    StarIsFullRange(FieldLo(i), FieldHi(i));
  }

  lemma ParsedIsWellFormed(expr: string)
    requires ExpressionValue(expr).Some?
    ensures WellFormed(ExpressionValue(expr).value)
  {
    var parts := Words(expr);
    FieldInRange(parts, 0);
    FieldInRange(parts, 1);
    FieldInRange(parts, 2);
    FieldInRange(parts, 3);
    FieldInRange(parts, 4);
    assert 0 in Range(0, 7);
  }

  /** What "* * * * *" denotes. */
  const EVERY_MINUTE := CronSchedule(Range(0, 59), Range(0, 23), Range(1, 31), Range(1, 12), Range(0, 7), true, true)

  lemma FiveStars(t: seq<string>)
    requires |t| == 5 && forall i :: 0 <= i < 5 ==> t[i] == "*"
    ensures ExpressionValue(Join(t)) == Some(EVERY_MINUTE)
  {
    var f := seq(5, (i: nat) => Range(FieldLo(i), FieldHi(i)));
    forall i | 0 <= i < 5 ensures IsWord(t[i]) && FieldValue(t[i], FieldLo(i), FieldHi(i)) == Some(f[i]) {
      StarIsFullRange(FieldLo(i), FieldHi(i));
    }
    ExpressionOfFive(f, t);
    AllDaysStay();
  }

  lemma AllDaysStay()
    ensures SundayNormalised(Range(0, 7)) == Range(0, 7)
  {
    assert 0 in Range(0, 7);
  }

  lemma EveryMinuteParses()
    ensures ExpressionValue("* * * * *") == Some(EVERY_MINUTE)
  {
    var t := seq(5, i => "*");
    FiveStars(t);
    StarsJoined(t);
  }

  lemma StarsJoined(t: seq<string>)
    requires |t| == 5 && forall i :: 0 <= i < 5 ==> t[i] == "*"
    ensures Join(t) == "* * * * *"
  {
    JoinFive(t);
  }

  lemma EveryMinuteHasText()
    ensures exists expr :: ExpressionValue(expr) == Some(EVERY_MINUTE)
  {
    EveryMinuteParses();
  }

  lemma AlwaysDue(lt: LocalTime, t: int)
    requires ProperClock(lt) && t % 60 == 0
    ensures Hit(EVERY_MINUTE, lt, t)
  {
    assert ProperTm(lt(t));
  }

  /** The header's promises, for every accepted expression. */
  ghost predicate KeepsNextPromise(lt: LocalTime, a: int) {
    forall expr :: ExpressionValue(expr).Some? ==> NextPromise(ExpressionValue(expr).value, lt, a)
  }

  ghost predicate KeepsPrevPromise(lt: LocalTime, a: int) {
    forall expr :: ExpressionValue(expr).Some? ==> PrevPromise(ExpressionValue(expr).value, lt, a)
  }

  /** "* * * * *" shows both searches breaking their promise at every time that does not round down,
      on every clock: the forward one skips a due minute, the backward one returns one of the future. */
  lemma PromisesBroken(lt: LocalTime, a: int)
    requires ProperClock(lt) && !RoundsDown(a)
    ensures !NextPromise(EVERY_MINUTE, lt, a) && !PrevPromise(EVERY_MINUTE, lt, a)
  {
    StartsAreWholeMinutes(a);
    var skipped, first := BackwardStart(a), ForwardStart(a);
    assert a < skipped;
    AlwaysDue(lt, skipped);
    AlwaysDue(lt, first);
    NextUnique(EVERY_MINUTE, lt, a, first);
    PrevUnique(EVERY_MINUTE, lt, a, skipped);
  }

  /** On every clock `next_after` keeps the header's promise for all accepted expressions if and only
      if the time is not negative or is a whole minute. */
  lemma NextPromiseIff(lt: LocalTime, a: int)
    requires ProperClock(lt)
    ensures RoundsDown(a) <==> KeepsNextPromise(lt, a)
  {
    if RoundsDown(a) {
      forall expr | ExpressionValue(expr).Some? ensures NextPromise(ExpressionValue(expr).value, lt, a) {
        NextExact(ExpressionValue(expr).value, lt, a);
      }
    } else {
      EveryMinuteHasText();
      var expr :| ExpressionValue(expr) == Some(EVERY_MINUTE);
      PromisesBroken(lt, a);
    }
  }

  /** The same for `prev_before`. */
  lemma PrevPromiseIff(lt: LocalTime, a: int)
    requires ProperClock(lt)
    ensures RoundsDown(a) <==> KeepsPrevPromise(lt, a)
  {
    if RoundsDown(a) {
      forall expr | ExpressionValue(expr).Some? ensures PrevPromise(ExpressionValue(expr).value, lt, a) {
        PrevExact(ExpressionValue(expr).value, lt, a);
      }
    } else {
      EveryMinuteHasText();
      var expr :| ExpressionValue(expr) == Some(EVERY_MINUTE);
      PromisesBroken(lt, a);
    }
  }
}
