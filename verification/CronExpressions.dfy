/** Whole expressions as a user writes them: five fields of documented tokens between white space. */
module CronExpressions {
  import opened Basics
  import opened Cron
  import opened CronParser
  import opened CronTexts

  // ----- White space -----

  /** Space, tab, line feed, vertical tab, form feed and carriage return. */
  predicate White(c: char) {
    c == ' ' || c == '\t' || c == '\n' || c as int == 11 || c as int == 12 || c == '\r'
  }

  ghost predicate AllWhite(s: string) {
    forall i :: 0 <= i < |s| ==> White(s[i])
  }

  ghost predicate NoneWhite(s: string) {
    forall i :: 0 <= i < |s| ==> !White(s[i])
  }

  lemma WhiteIsSpace(c: char)
    ensures IsSpace(c) <==> White(c)
  {
  }

  lemma {:induction false} WhiteSkipped(gap: string, rest: string)
    requires AllWhite(gap)
    ensures Words(gap + rest) == Words(rest)
  {
    if gap == "" {
      assert gap + rest == rest;
    } else {
      WhiteIsSpace(gap[0]);
      assert (gap + rest)[1..] == gap[1..] + rest;
      WhiteSkipped(gap[1..], rest);
    }
  }

  lemma WordTaken(w: string, rest: string)
    requires w != "" && NoneWhite(w) && (rest == "" || White(rest[0]))
    ensures Words(w + rest) == [w] + Words(rest)
  {
    forall c | c in w ensures !IsSpace(c) { WhiteIsSpace(c); }
    if rest != "" { WhiteIsSpace(rest[0]); }
    WordLengthOf(w, rest);
    assert (w + rest)[..|w|] == w && (w + rest)[|w|..] == rest;
    WhiteIsSpace((w + rest)[0]);
  }

  /** The words with a gap before each of them and one at the end. */
  function Lay(words: seq<string>, gaps: seq<string>): string
    requires |gaps| == |words| + 1
  {
    if words == [] then gaps[0] else gaps[0] + (words[0] + Lay(words[1..], gaps[1..]))
  }

  /** Words without white space, and gaps of nothing else; only the outer gaps may be empty. */
  ghost predicate LaidOut(words: seq<string>, gaps: seq<string>) {
    && |gaps| == |words| + 1
    && (forall i :: 0 <= i < |words| ==> words[i] != "" && NoneWhite(words[i]))
    && (forall i :: 0 <= i < |gaps| ==> AllWhite(gaps[i]))
    && (forall i :: 0 < i < |words| ==> gaps[i] != "")
  }

  lemma RestIsApart(words: seq<string>, gaps: seq<string>)
    requires LaidOut(words, gaps) && words != []
    ensures LaidOut(words[1..], gaps[1..])
    ensures var rest := Lay(words[1..], gaps[1..]); rest == "" || White(rest[0])
  {
    var tail, g := words[1..], gaps[1..];
    assert forall i :: 0 <= i < |tail| ==> tail[i] == words[i + 1];
    assert forall i :: 0 <= i < |g| ==> g[i] == gaps[i + 1];
    if tail != [] {
      assert g[0] != "";
    }
  }

  /** Splitting at white space gives back exactly the words, whatever runs of it stand between. */
  lemma {:induction false} WordsExact(words: seq<string>, gaps: seq<string>)
    requires LaidOut(words, gaps)
    ensures Words(Lay(words, gaps)) == words
    decreases |words|
  {
    if words == [] {
      WhiteSkipped(gaps[0], "");
      assert gaps[0] + "" == gaps[0];
    } else {
      var rest := Lay(words[1..], gaps[1..]);
      RestIsApart(words, gaps);
      WhiteSkipped(gaps[0], words[0] + rest);
      WordTaken(words[0], rest);
      WordsExact(words[1..], gaps[1..]);
      assert [words[0]] + words[1..] == words;
    }
  }

  // ----- Documented tokens and lists of them -----

  datatype Item = Star | Number(a: nat) | Interval(a: nat, b: nat) | EveryNth(n: nat) | StepInterval(a: nat, b: nat, n: nat)

  function Text(item: Item): string {
    match item
    case Star => "*"
    case Number(a) => Decimal(a)
    case Interval(a, b) => RangeText(a, b)
    case EveryNth(n) => StepText("*", n)
    case StepInterval(a, b, n) => StepText(RangeText(a, b), n)
  }

  /** The value belongs to the item, in a field from lo to hi. */
  predicate Belongs(item: Item, lo: nat, hi: nat, v: int) {
    lo <= v <= hi &&
    match item
    case Star => true
    case Number(a) => v == a
    case Interval(a, b) => a <= v <= b
    case EveryNth(n) => n > 0 && (v - lo) % n == 0
    case StepInterval(a, b, n) => a <= v <= b && n > 0 && (v - a) % n == 0
  }

  predicate InRange(item: Item, lo: nat, hi: nat) {
    match item
    case Star => true
    case Number(a) => lo <= a <= hi
    case Interval(a, b) => lo <= a <= b <= hi
    case EveryNth(n) => 1 <= n <= INT_MAX
    case StepInterval(a, b, n) => lo <= a <= b <= hi && 1 <= n <= INT_MAX
  }

  function SpanOf(item: Item, lo: nat, hi: nat): Span {
    match item
    case Star => Span(lo, hi, 1)
    case Number(a) => Span(a, a, 1)
    case Interval(a, b) => Span(a, b, 1)
    case EveryNth(n) => Span(lo, hi, n)
    case StepInterval(a, b, n) => Span(a, b, n)
  }

  lemma ItemParses(item: Item, lo: nat, hi: nat)
    requires InRange(item, lo, hi) && lo <= hi <= INT_MAX
    ensures ParseToken(Text(item), lo, hi) == Some(SpanOf(item, lo, hi))
  {
    match item
    case Star => TokenExact("*", lo, hi, Span(lo, hi, 1));
    case Number(a) => DocumentedTokens(a, a, 1, lo, hi);
    case Interval(a, b) => DocumentedTokens(a, b, 1, lo, hi);
    case EveryNth(n) => DocumentedTokens(lo, hi, n, lo, hi);
    case StepInterval(a, b, n) => DocumentedTokens(a, b, n, lo, hi);
  }

  lemma ItemValues(item: Item, lo: nat, hi: nat, v: int)
    requires InRange(item, lo, hi)
    ensures v in SpanOf(item, lo, hi).Values() <==> Belongs(item, lo, hi, v)
  {
  }

  /** None of the texts has a comma, white space, or is empty; only the bare star is a star. */
  lemma TextShape(item: Item)
    ensures Text(item) != "" && ',' !in Text(item) && NoneWhite(Text(item))
    ensures Text(item) == "*" <==> item.Star?
  {
    match item
    case Star =>
    case Number(a) => DecimalShape(a);
    case Interval(a, b) => RangeShape(a, b);
    case EveryNth(n) =>
      DecimalShape(n);
      assert Text(item)[1] == '/';
    case StepInterval(a, b, n) =>
      RangeShape(a, b);
      DecimalShape(n);
      assert Text(item)[0] == Decimal(a)[0];
      DecimalShape(a);
  }

  lemma DecimalShape(n: nat)
    ensures Decimal(n) != "" && IsDigit(Decimal(n)[0]) && ',' !in Decimal(n) && NoneWhite(Decimal(n)) && Decimal(n) != "*"
  {
    DecimalIsDigits(n);
    assert "*"[0] == '*';
  }

  lemma RangeShape(a: nat, b: nat)
    ensures var r := RangeText(a, b); r != "" && r[0] == Decimal(a)[0] && ',' !in r && NoneWhite(r) && r != "*"
  {
    DecimalShape(a);
    DecimalShape(b);
    assert "*"[0] == '*';
  }

  /** A field: documented tokens with commas between them. */
  function ListText(items: seq<Item>): string
    requires items != []
  {
    if |items| == 1 then Text(items[0]) else Text(items[0]) + "," + ListText(items[1..])
  }

  lemma {:induction false} ListShape(items: seq<Item>)
    requires items != []
    ensures ListText(items) != "" && NoneWhite(ListText(items))
    ensures ListText(items) == "*" <==> items == [Star]
  {
    TextShape(items[0]);
    if |items| > 1 {
      ListShape(items[1..]);
      assert |ListText(items)| > 1;
    } else {
      assert items == [items[0]];
    }
  }

  ghost predicate AllInRange(items: seq<Item>, lo: nat, hi: nat) {
    items != [] && forall i :: 0 <= i < |items| ==> InRange(items[i], lo, hi)
  }

  ghost predicate BelongsToSome(items: seq<Item>, lo: nat, hi: nat, v: int) {
    exists i :: 0 <= i < |items| && Belongs(items[i], lo, hi, v)
  }

  lemma BelongsCons(items: seq<Item>, lo: nat, hi: nat, v: int)
    requires items != []
    ensures BelongsToSome(items, lo, hi, v) <==> Belongs(items[0], lo, hi, v) || BelongsToSome(items[1..], lo, hi, v)
  {
    var tail := items[1..];
    assert forall i :: 0 <= i < |tail| ==> tail[i] == items[i + 1];
    if i :| 0 <= i < |items| && Belongs(items[i], lo, hi, v) && i > 0 {
      assert Belongs(tail[i - 1], lo, hi, v);
    }
  }

  lemma {:induction false} ListTokens(items: seq<Item>, lo: nat, hi: nat)
    requires AllInRange(items, lo, hi) && lo <= hi <= INT_MAX
    ensures TokensValue(Tokens(ListText(items)), lo, hi).Some?
    ensures forall v :: v in TokensValue(Tokens(ListText(items)), lo, hi).value <==> BelongsToSome(items, lo, hi, v)
  {
    var first := Text(items[0]);
    TextShape(items[0]);
    ItemParses(items[0], lo, hi);
    forall v ensures v in SpanOf(items[0], lo, hi).Values() <==> Belongs(items[0], lo, hi, v) {
      ItemValues(items[0], lo, hi, v);
    }
    forall v ensures BelongsToSome(items, lo, hi, v) <==> Belongs(items[0], lo, hi, v) || BelongsToSome(items[1..], lo, hi, v) {
      BelongsCons(items, lo, hi, v);
    }
    if |items| == 1 {
      TokenBeforeComma(first, "");
      ConsValue(first, [], lo, hi);
      assert [first] + [] == [first];
    } else {
      ListTokens(items[1..], lo, hi);
      TokenBeforeComma(first, ListText(items[1..]));
      ConsValue(first, Tokens(ListText(items[1..])), lo, hi);
    }
  }

  lemma ConsValue(token: string, tail: seq<string>, lo: int, hi: int)
    requires ParseToken(token, lo, hi).Some? && TokensValue(tail, lo, hi).Some?
    ensures TokensValue([token] + tail, lo, hi) ==
            Some(ParseToken(token, lo, hi).value.Values() + TokensValue(tail, lo, hi).value)
  {
    assert ([token] + tail)[1..] == tail;
  }

  lemma SomethingBelongs(item: Item, lo: nat, hi: nat)
    requires InRange(item, lo, hi) && lo <= hi
    ensures exists v :: Belongs(item, lo, hi, v)
  {
    match item
    case Star => assert Belongs(item, lo, hi, lo);
    case EveryNth(n) => assert Belongs(item, lo, hi, lo);
    case Number(a) => assert Belongs(item, lo, hi, a);
    case Interval(a, b) => assert Belongs(item, lo, hi, a);
    case StepInterval(a, b, n) => assert Belongs(item, lo, hi, a);
  }

  /** A documented field is accepted and denotes exactly the values its tokens write out. */
  lemma DocumentedField(items: seq<Item>, lo: nat, hi: nat)
    requires AllInRange(items, lo, hi) && lo <= hi <= INT_MAX
    ensures FieldValue(ListText(items), lo, hi).Some?
    ensures forall v :: v in FieldValue(ListText(items), lo, hi).value <==> BelongsToSome(items, lo, hi, v)
  {
    ListTokens(items, lo, hi);
    SomethingBelongs(items[0], lo, hi);
    var v :| Belongs(items[0], lo, hi, v);
    assert BelongsToSome(items, lo, hi, v);
  }

  // ----- Expressions -----

  /** Five documented fields in their ranges: minute, hour, day of month, month, day of week. */
  ghost predicate Documented(fields: seq<seq<Item>>) {
    && |fields| == 5
    && AllInRange(fields[0], 0, 59) && AllInRange(fields[1], 0, 23) && AllInRange(fields[2], 1, 31)
    && AllInRange(fields[3], 1, 12) && AllInRange(fields[4], 0, 7)
  }

  /** What the fields write out. */
  ghost predicate WritesOut(fields: seq<seq<Item>>, s: CronSchedule)
    requires |fields| == 5
  {
    && (forall v :: v in s.minutes <==> BelongsToSome(fields[0], 0, 59, v))
    && (forall v :: v in s.hours <==> BelongsToSome(fields[1], 0, 23, v))
    && (forall v :: v in s.doms <==> BelongsToSome(fields[2], 1, 31, v))
    && (forall v :: v in s.months <==> BelongsToSome(fields[3], 1, 12, v))
    && (forall v :: v in s.dows <==> BelongsToSome(fields[4], 0, 7, v) || (v == 0 && BelongsToSome(fields[4], 0, 7, 7)))
    && (s.domWildcard <==> fields[2] == [Star]) && (s.dowWildcard <==> fields[4] == [Star])
  }

  ghost function Texts(fields: seq<seq<Item>>): (t: seq<string>)
    requires Documented(fields)
    ensures |t| == 5
  {
    [ListText(fields[0]), ListText(fields[1]), ListText(fields[2]), ListText(fields[3]), ListText(fields[4])]
  }

  lemma FieldAt(fields: seq<seq<Item>>, i: nat)
    requires Documented(fields) && i < 5
    ensures AllInRange(fields[i], FieldLo(i), FieldHi(i)) && Texts(fields)[i] == ListText(fields[i])
  {
  }

  /** Every expression of documented fields, with any runs of white space around and between them, is
      accepted and denotes exactly what is written. */
  lemma DocumentedExpression(fields: seq<seq<Item>>, gaps: seq<string>)
    requires Documented(fields) && |gaps| == 6 && (forall i :: 0 <= i < 6 ==> AllWhite(gaps[i]))
    requires forall i :: 0 < i < 5 ==> gaps[i] != ""
    ensures var e := ExpressionValue(Lay(Texts(fields), gaps)); e.Some? && WritesOut(fields, e.value)
  {
    var t := Texts(fields);
    forall i | 0 <= i < 5 ensures t[i] != "" && NoneWhite(t[i]) {
      FieldAt(fields, i);
      ListShape(fields[i]);
    }
    WordsExact(t, gaps);
    forall i | 0 <= i < 5 ensures FieldOk(t, i) {
      FieldAt(fields, i);
      DocumentedField(fields[i], FieldLo(i), FieldHi(i));
    }
    FieldsWriteOut(fields, t, Lay(t, gaps));
  }

  lemma FieldsWriteOut(fields: seq<seq<Item>>, t: seq<string>, expr: string)
    requires Documented(fields) && t == Texts(fields) && Words(expr) == t && forall i :: 0 <= i < 5 ==> FieldOk(t, i)
    ensures var e := ExpressionValue(expr); e.Some? && WritesOut(fields, e.value)
  {
    forall i, v | 0 <= i < 5
      ensures v in FieldSet(t, i) <==> BelongsToSome(fields[i], FieldLo(i), FieldHi(i), v)
    {
      FieldAt(fields, i);
      DocumentedField(fields[i], FieldLo(i), FieldHi(i));
    }
    ListShape(fields[2]);
    ListShape(fields[4]);
  }

  /** With any other number of words a text is rejected. */
  lemma WrongCount(words: seq<string>, gaps: seq<string>)
    requires LaidOut(words, gaps) && |words| != 5
    ensures ExpressionValue(Lay(words, gaps)) == None
  {
    WordsExact(words, gaps);
  }
}
