/** Label selectors: what a requirement means, and the parser for the textual form. */
module Selector {
  import opened Bytes
  import opened Options
  import opened Text

  type Labels = map<Bytes, Bytes>

  datatype Requirement =
    | Exists(key: Bytes)
    | NotExists(key: Bytes)
    | Equals(key: Bytes, value: Bytes)
    | NotEquals(key: Bytes, value: Bytes)
    | In(key: Bytes, values: seq<Bytes>)
    | NotIn(key: Bytes, values: seq<Bytes>)

  predicate MatchesRequirement(labels: Labels, r: Requirement) {
    match r
    case Exists(key) => key in labels
    case NotExists(key) => key !in labels
    case Equals(key, value) => key in labels && labels[key] == value
    case NotEquals(key, value) => key !in labels || labels[key] != value
    case In(key, values) => key in labels && labels[key] in values
    case NotIn(key, values) => key !in labels || labels[key] !in values
  }

  /** Requirements are combined with AND; an empty selector matches everything. */
  predicate MatchesSelector(labels: Labels, selector: seq<Requirement>) {
    forall i :: 0 <= i < |selector| ==> MatchesRequirement(labels, selector[i])
  }

  // ---- Parsing ----

  function LowerByte(c: Byte): Byte {
    if 'A' <= c <= 'Z' then c + 32 as char else c
  }

  /** strings.ToLower on ASCII text. */
  function Lower(s: Bytes): (lower: Bytes)
    ensures |lower| == |s|
  {
    if s == [] then [] else [LowerByte(s[0])] + Lower(s[1..])
  }

  /**
   * What the parser needs to know of strings.ToLower on any bytes: it works character by character, so a text may be
   * cut in front of or behind an ASCII character; it does to ASCII characters what Lower does; and no other character
   * lowers to a blank. Beyond ASCII it may change the length.
   */
  ghost predicate Lowering(lower: Bytes -> Bytes) {
    && (forall a, b {:trigger CutAtAscii(a, b)} :: CutAtAscii(a, b) ==> lower(a + b) == lower(a) + lower(b))
    && (forall c: Byte :: IsAscii(c) ==> lower([c]) == [LowerByte(c)])
    && (forall s :: ' ' !in s ==> ' ' !in lower(s))
  }

  predicate CutAtAscii(a: Bytes, b: Bytes) {
    a == [] || b == [] || IsAscii(a[|a| - 1]) || IsAscii(b[0])
  }

  function Prepend<T>(items: seq<T>, more: Option<seq<T>>): Option<seq<T>> {
    if more.Some? then Some(items + more.value) else None
  }

  /** The comma-separated expressions of what is left, current being the one under way; None is a syntax error. */
  function SplitScan(rest: Bytes, current: Bytes, depth: nat): Option<seq<Bytes>>
    decreases |rest|
  {
    if rest == [] then
      if depth != 0 || TrimSpace(current) == [] then None else Some([TrimSpace(current)])
    else if rest[0] == '(' then SplitScan(rest[1..], current + [rest[0]], depth + 1)
    else if rest[0] == ')' then
      if depth == 0 then None else SplitScan(rest[1..], current + [rest[0]], depth - 1)
    else if rest[0] == ',' && depth == 0 then
      if TrimSpace(current) == [] then None else Prepend([TrimSpace(current)], SplitScan(rest[1..], [], 0))
    else SplitScan(rest[1..], current + [rest[0]], depth)
  }

  method SplitSelectorExpressions(text: Bytes) returns (expressions: Option<seq<Bytes>>)
    ensures expressions == if TrimSpace(text) == [] then Some([]) else SplitScan(TrimSpace(text), [], 0)
  {
    hide TrimSpace;
    var raw := TrimSpace(text);
    if |raw| == 0 {
      return Some([]);
    }
    var found, start, depth := [], 0, 0;
    assert raw[0..0] == [] && raw[0..] == raw;
    PrependNothing(SplitScan(raw, [], 0));
    for index := 0 to |raw|
      invariant start <= index && depth >= 0
      invariant SplitScan(raw, [], 0) == Prepend(found, SplitScan(raw[index..], raw[start..index], depth))
    {
      var c := raw[index];
      assert raw[index..][0] == c && raw[index..][1..] == raw[index + 1..];
      assert raw[start..index] + [c] == raw[start..index + 1];
      if c == '(' {
        depth := depth + 1;
      } else if c == ')' {
        depth := depth - 1;
        if depth < 0 {
          return None;
        }
      } else if c == ',' && depth == 0 {
        var expression := TrimSpace(raw[start..index]);
        if |expression| == 0 {
          return None;
        }
        PrependTwice(found, [expression], SplitScan(raw[index + 1..], [], 0));
        found := found + [expression];
        start := index + 1;
        assert raw[start..index + 1] == [];
      }
    }
    assert raw[|raw|..] == [] && raw[start..|raw|] == raw[start..];
    if depth != 0 {
      return None;
    }
    var tail := TrimSpace(raw[start..]);
    if |tail| == 0 {
      return None;
    }
    return Some(found + [tail]);
  }

  lemma PrependNothing<T>(more: Option<seq<T>>)
    ensures Prepend([], more) == more
  {
    if more.Some? { assert [] + more.value == more.value; }
  }

  lemma PrependTwice<T>(a: seq<T>, b: seq<T>, more: Option<seq<T>>)
    ensures Prepend(a, Prepend(b, more)) == Prepend(a + b, more)
  {
    if more.Some? { assert a + (b + more.value) == a + b + more.value; }
  }

  /** The distinct non-blank items of a list; None if one is blank. */
  function DistinctValues(items: seq<Bytes>, seen: seq<Bytes>): Option<seq<Bytes>>
    decreases |items|
  {
    if items == [] then Some(seen)
    else
      var value := TrimSpace(items[0]);
      if value == [] then None
      else DistinctValues(items[1..], if value in seen then seen else seen + [value])
  }

  method ParseSetSelectorValues(raw: Bytes) returns (values: Option<seq<Bytes>>)
    ensures values == DistinctValues(Split(raw, ','), [])
  {
    hide TrimSpace;
    var items := Split(raw, ',');
    var list, seen := [], {};
    for i := 0 to |items|
      invariant forall v :: v in seen <==> v in list
      invariant i > 0 ==> list != []
      invariant DistinctValues(items, []) == DistinctValues(items[i..], list)
    {
      var value := TrimSpace(items[i]);
      assert items[i..][1..] == items[i + 1..];
      if |value| == 0 {
        return None;
      }
      if value in seen { continue; }
      seen := seen + {value};
      list := list + [value];
    }
    return Some(list);
  }

  /** NotASet: neither set operator occurs; Panic: a slice out of range. */
  datatype Parsed = Good(requirement: Requirement) | Bad | NotASet | Panic

  /**
   * parseSetSelectorExpression for one of its two tokens. The position found in the lowered text is used on the
   * original one.
   */
  function ParseSet(lower: Bytes -> Bytes, expression: Bytes, token: Bytes, negated: bool): Parsed
    requires token != []
  {
    var at := Index(lower(expression), token);
    if at.None? then NotASet
    else if at.value > |expression| then Panic
    else
      var key := TrimSpace(expression[..at.value]);
      if key == [] then Bad
      else if at.value + |token| > |expression| then Panic
      else
        var text := TrimSpace(expression[at.value + |token|..]);
        if SetValues(text).None? then Bad
        else Good(if negated then NotIn(key, SetValues(text).value) else In(key, SetValues(text).value))
  }

  /** The values of a parenthesised list. */
  function SetValues(text: Bytes): Option<seq<Bytes>> {
    if |text| < 2 || text[0] != '(' || text[|text| - 1] != ')' then None
    else DistinctValues(Split(text[1..|text| - 1], ','), [])
  }

  /** parseBinarySelectorExpression. */
  function ParseBinary(expression: Bytes, at: nat, length: nat, negated: bool): Parsed
    requires at + length <= |expression|
  {
    var key, value := TrimSpace(expression[..at]), TrimSpace(expression[at + length..]);
    if key == [] || value == [] then Bad
    else Good(if negated then NotEquals(key, value) else Equals(key, value))
  }

  /** parseSelectorExpression. */
  function ParseExpression(lower: Bytes -> Bytes, raw: Bytes): Parsed {
    var expression := TrimSpace(raw);
    if expression == [] then Bad
    else
      var notInSet := ParseSet(lower, expression, " notin", true);
      if !notInSet.NotASet? then notInSet
      else
        var inSet := ParseSet(lower, expression, " in", false);
        if !inSet.NotASet? then inSet else ParseWithoutSet(expression)
  }

  function ParseWithoutSet(expression: Bytes): Parsed
    requires expression != []
  {
    IndexBounds(expression, "!=");
    IndexBounds(expression, "==");
    IndexBounds(expression, "=");
    if Index(expression, "!=").Some? then ParseBinary(expression, Index(expression, "!=").value, 2, true)
    else if Index(expression, "==").Some? then ParseBinary(expression, Index(expression, "==").value, 2, false)
    else if Index(expression, "=").Some? then ParseBinary(expression, Index(expression, "=").value, 1, false)
    else if expression[0] == '!' then
      if TrimSpace(expression[1..]) == [] then Bad else Good(NotExists(TrimSpace(expression[1..])))
    else Good(Exists(expression))
  }

  datatype Outcome = Accepted(selector: seq<Requirement>) | Rejected | Panics

  function ParseAll(lower: Bytes -> Bytes, expressions: seq<Bytes>): Outcome {
    if expressions == [] then Accepted([])
    else
      match ParseExpression(lower, expressions[0])
      case Good(requirement) =>
        (match ParseAll(lower, expressions[1..])
         case Accepted(rest) => Accepted([requirement] + rest)
         case other => other)
      case Panic => Panics
      case _ => Rejected
  }

  /** parseLabelSelectors for one selector parameter. */
  function ParseSelector(lower: Bytes -> Bytes, text: Bytes): Outcome {
    if TrimSpace(text) == [] then Accepted([])
    else
      match SplitScan(TrimSpace(text), [], 0)
      case Some(expressions) => ParseAll(lower, expressions)
      case None => Rejected
  }

  // ---- Rendering ----

  function Render(r: Requirement): Bytes {
    match r
    case Exists(key) => key
    case NotExists(key) => "!" + key
    case Equals(key, value) => key + ("=" + value)
    case NotEquals(key, value) => key + ("!=" + value)
    case In(key, values) => key + (" in (" + (Join(values, ',') + ")"))
    case NotIn(key, values) => key + (" notin (" + (Join(values, ',') + ")"))
  }

  function RenderAll(list: seq<Requirement>): Bytes {
    if list == [] then []
    else if |list| == 1 then Render(list[0])
    else Render(list[0]) + ("," + RenderAll(list[1..]))
  }

  /** A character without meaning in the selector grammar. */
  predicate TokenChar(c: Byte) {
    !IsSpace(c) && c != ',' && c != '(' && c != ')' && c != '=' && c != '!'
  }

  /** Text without such characters that trimming leaves alone; it may go beyond ASCII. */
  predicate Token(s: Bytes) {
    s != [] && Trimmed(s) && forall i :: 0 <= i < |s| ==> TokenChar(s[i])
  }

  predicate Distinct(values: seq<Bytes>) {
    forall i, j :: 0 <= i < j < |values| ==> values[i] != values[j]
  }

  predicate WellFormedSet(values: seq<Bytes>) {
    values != [] && Distinct(values) && forall i :: 0 <= i < |values| ==> Token(values[i])
  }

  predicate WellFormed(r: Requirement) {
    && Token(r.key)
    && match r
       case Exists(_) => true
       case NotExists(_) => true
       case Equals(_, value) => Token(value)
       case NotEquals(_, value) => Token(value)
       case In(_, values) => WellFormedSet(values)
       case NotIn(_, values) => WellFormedSet(values)
  }

  // ---- Round trip: splitting ----

  /** No parenthesis, and no comma either unless commas are fine. */
  ghost predicate Flat(a: Bytes, commas: bool) {
    forall i :: 0 <= i < |a| ==> a[i] != '(' && a[i] != ')' && (a[i] != ',' || commas)
  }

  /** Characters that do not separate are added to the expression under way. */
  lemma {:induction false} ScanStretch(a: Bytes, rest: Bytes, current: Bytes, depth: nat)
    requires Flat(a, depth > 0)
    ensures SplitScan(a + rest, current, depth) == SplitScan(rest, current + a, depth)
    decreases |a|
  {
    if a == [] {
      assert a + rest == rest && current + a == current;
    } else {
      assert (a + rest)[0] == a[0] && (a + rest)[1..] == a[1..] + rest;
      ScanStretch(a[1..], rest, current + [a[0]], depth);
      assert current + [a[0]] + a[1..] == current + a;
    }
  }

  lemma {:induction false} JoinChars(values: seq<Bytes>)
    requires forall i :: 0 <= i < |values| ==> Token(values[i])
    ensures forall i :: 0 <= i < |Join(values, ',')| ==>
              var c := Join(values, ',')[i]; c == ',' || TokenChar(c)
  {
    if |values| > 1 { JoinChars(values[1..]); }
  }

  lemma {:induction false} ScanParenthesised(head: Bytes, inner: Bytes, rest: Bytes)
    requires Flat(head, false) && Flat(inner, true)
    ensures SplitScan(head + ("(" + (inner + (")" + rest))), [], 0) == SplitScan(rest, head + ("(" + (inner + ")")), 0)
  {
    hide SplitScan, Flat;
    var close: Bytes := ")" + rest;
    ScanStretch(head, "(" + (inner + close), [], 0);
    EmptyFirst(head);
    ScanOpen(inner + close, head);
    ScanStretch(inner, close, head + ['('], 1);
    ScanClose(rest, head + ['('] + inner);
    Parenthesise(head, inner);
  }

  lemma EmptyFirst(a: Bytes)
    ensures [] + a == a
  {}

  lemma Parenthesise(head: Bytes, inner: Bytes)
    ensures head + ['('] + inner + [')'] == head + ("(" + (inner + ")"))
  {}

  lemma ScanOpen(rest: Bytes, current: Bytes)
    ensures SplitScan("(" + rest, current, 0) == SplitScan(rest, current + ['('], 1)
  {
    var s: Bytes := "(" + rest;
    assert s[0] == '(' && s[1..] == rest;
  }

  lemma ScanClose(rest: Bytes, current: Bytes)
    ensures SplitScan(")" + rest, current, 1) == SplitScan(rest, current + [')'], 0)
  {
    var s: Bytes := ")" + rest;
    assert s[0] == ')' && s[1..] == rest;
  }

  lemma Reassociate(key: Bytes, op: Bytes, inner: Bytes, rest: Bytes)
    ensures key + ((op + "(") + (inner + ")")) + rest == (key + op) + ("(" + (inner + (")" + rest)))
    ensures key + ((op + "(") + (inner + ")")) == (key + op) + ("(" + (inner + ")"))
  {}

  /** A rendered requirement is scanned as one expression. */
  lemma {:induction false} ScanRendered(r: Requirement, rest: Bytes)
    requires WellFormed(r)
    ensures SplitScan(Render(r) + rest, [], 0) == SplitScan(rest, Render(r), 0)
  {
    hide SplitScan, Join, Trimmed;
    match r
    case In(key, values) =>
      JoinChars(values);
      var op: Bytes := " in ";
      assert op + "(" == " in (";
      Reassociate(key, op, Join(values, ','), rest);
      ScanParenthesised(key + op, Join(values, ','), rest);
    case NotIn(key, values) =>
      JoinChars(values);
      var op: Bytes := " notin ";
      assert op + "(" == " notin (";
      Reassociate(key, op, Join(values, ','), rest);
      ScanParenthesised(key + op, Join(values, ','), rest);
    case _ =>
      ScanStretch(Render(r), rest, [], 0);
      assert [] + Render(r) == Render(r);
  }

  /** Two parts around something ASCII that have nothing to trim on their outer sides. */
  lemma {:induction false} Wrapped(a: Bytes, op: Bytes, b: Bytes)
    requires op != [] && IsAscii(op[0]) && IsAscii(op[|op| - 1])
    requires if a == [] then !IsSpace(op[0]) else SpaceAtStart(a) == 0
    requires if b == [] then !IsSpace(op[|op| - 1]) else SpaceAtEnd(b) == 0
    ensures Trimmed(a + (op + b))
  {
    hide SpaceAtStart, SpaceAtEnd;
    assert a + (op + b) == (a + op) + b;
    if a == [] {
      assert a + (op + b) == op + b;
      AsciiStart(op + b);
    } else {
      StartStays(a, op + b);
    }
    if b == [] {
      assert (a + op) + b == a + op;
      AsciiEnd(a + op);
    } else {
      EndStays(a + op, b);
    }
  }

  /** Rendered text begins and ends with a character that is not a blank. */
  lemma {:induction false} RenderedTrimmed(r: Requirement)
    requires WellFormed(r)
    ensures Render(r) != [] && Trimmed(Render(r)) && TrimSpace(Render(r)) == Render(r)
  {
    hide Join, SpaceAtStart, SpaceAtEnd, TrimSpace;
    match r {
      case Exists(_) =>
      case NotExists(key) =>
        Wrapped([], "!", key);
        assert [] + ("!" + key) == "!" + key;
      case Equals(key, value) => Wrapped(key, "=", value);
      case NotEquals(key, value) => Wrapped(key, "!=", value);
      case In(key, values) =>
        var op: Bytes := " in (" + (Join(values, ',') + ")");
        assert op + [] == op;
        Wrapped(key, op, []);
      case NotIn(key, values) =>
        var op: Bytes := " notin (" + (Join(values, ',') + ")");
        assert op + [] == op;
        Wrapped(key, op, []);
    }
    TrimmedStays(Render(r));
  }

  lemma {:induction false} AllTrimmed(list: seq<Requirement>)
    requires list != [] && forall i :: 0 <= i < |list| ==> WellFormed(list[i])
    ensures RenderAll(list) != [] && Trimmed(RenderAll(list))
  {
    hide Render, WellFormed, TrimSpace;
    RenderedTrimmed(list[0]);
    if |list| > 1 {
      AllTrimmed(list[1..]);
      Ends(Render(list[0]), RenderAll(list[1..]));
    }
  }

  lemma Ends(a: Bytes, b: Bytes)
    requires a != [] && b != [] && Trimmed(a) && Trimmed(b)
    ensures Trimmed(a + ("," + b))
  {
    Wrapped(a, ",", b);
  }

  function Rendered(list: seq<Requirement>): (texts: seq<Bytes>)
    ensures |texts| == |list|
  {
    if list == [] then [] else [Render(list[0])] + Rendered(list[1..])
  }

  /** Splitting the joined text gives back the rendered requirements. */
  lemma {:induction false} SplitsBack(list: seq<Requirement>)
    requires list != [] && forall i :: 0 <= i < |list| ==> WellFormed(list[i])
    ensures SplitScan(RenderAll(list), [], 0) == Some(Rendered(list))
  {
    hide Render, WellFormed, TrimSpace;
    var first := list[0];
    RenderedTrimmed(first);
    if |list| == 1 {
      ScanRendered(first, []);
      assert Render(first) + [] == Render(first);
      assert Rendered(list[1..]) == [] && Rendered(list) == [Render(first)];
      assert SplitScan([], Render(first), 0) == Some([Render(first)]);
    } else {
      var rest: Bytes := "," + RenderAll(list[1..]);
      ScanRendered(first, rest);
      SplitsBack(list[1..]);
      assert rest[0] == ',' && rest[1..] == RenderAll(list[1..]);
    }
  }

  // ---- Round trip: one expression ----

  lemma {:induction false} LowerAt(s: Bytes, i: nat)
    requires i < |s|
    ensures Lower(s)[i] == LowerByte(s[i])
  {
    if i > 0 { LowerAt(s[1..], i - 1); }
  }

  lemma {:induction false} LowerConcat(a: Bytes, b: Bytes)
    ensures Lower(a + b) == Lower(a) + Lower(b)
  {
    if a == [] {
      assert a + b == b;
    } else {
      assert (a + b)[1..] == a[1..] + b;
      LowerConcat(a[1..], b);
    }
  }

  lemma {:induction false} LowerCut(lower: Bytes -> Bytes, a: Bytes, b: Bytes)
    requires Lowering(lower) && CutAtAscii(a, b)
    ensures lower(a + b) == lower(a) + lower(b)
  {}

  /** On ASCII text every lowering is Lower. */
  lemma {:induction false} LowerAscii(lower: Bytes -> Bytes, s: Bytes)
    requires Lowering(lower) && forall i :: 0 <= i < |s| ==> IsAscii(s[i])
    ensures lower(s) == Lower(s)
  {
    if s == [] {
      assert [] + s == s;
      LowerCut(lower, [], s);
    } else {
      assert s == [s[0]] + s[1..];
      LowerCut(lower, [s[0]], s[1..]);
      LowerAscii(lower, s[1..]);
    }
  }

  lemma NoMatch(s: Bytes, token: Bytes)
    requires token != [] && token[0] !in s
    ensures Index(s, token) == None
  {
    IndexSkip(s, [], token);
    assert s + [] == s;
  }

  lemma TokenHas(s: Bytes, c: Byte)
    requires Token(s) && !TokenChar(c)
    ensures c !in s
  {}

  lemma TokenTrimmed(s: Bytes)
    requires Token(s)
    ensures TrimSpace(s) == s && Trimmed(s)
  {
    TrimmedStays(s);
  }

  /** An expression without blanks is no set expression. */
  lemma {:induction false} NoBlankNoSet(lower: Bytes -> Bytes, expression: Bytes)
    requires Lowering(lower) && ' ' !in expression
    ensures ParseSet(lower, expression, " notin", true) == NotASet
    ensures ParseSet(lower, expression, " in", false) == NotASet
  {
    NoMatch(lower(expression), " notin");
    NoMatch(lower(expression), " in");
  }

  lemma {:induction false} SimpleParse(lower: Bytes -> Bytes, expression: Bytes)
    requires Lowering(lower) && ' ' !in expression && expression != [] && Trimmed(expression)
    ensures ParseExpression(lower, expression) == ParseWithoutSet(expression)
  {
    NoBlankNoSet(lower, expression);
    TrimmedStays(expression);
  }

  /** Where the operator of a binary expression is found, whatever longer operators are tried first. */
  lemma {:induction false} OperatorAt(key: Bytes, value: Bytes)
    requires Token(key) && Token(value)
    ensures Index(key + ("=" + value), "!=") == None && Index(key + ("=" + value), "==") == None
    ensures Index(key + ("=" + value), "=") == Some(|key|)
    ensures Index(key + ("!=" + value), "!=") == Some(|key|)
  {
    hide Index, HasPrefix, Token;
    TokenHas(key, '=');
    TokenHas(key, '!');
    TokenHas(value, '!');
    EqualsOnce(value);
    NotIn3(key, value);
    NoMatch(key + ("=" + value), "!=");
    IndexSkip(key, "=" + value, "==");
    IndexSkip(key, "=" + value, "=");
    IndexSkip(key, "!=" + value, "!=");
    IndexStep("=" + value, "=");
    IndexStep("!=" + value, "!=");
  }

  lemma NotIn3(key: Bytes, value: Bytes)
    requires '!' !in key && '!' !in value
    ensures '!' !in key + ("=" + value)
  {}

  lemma {:induction false} EqualsOnce(value: Bytes)
    requires Token(value)
    ensures Index("=" + value, "==") == None
    ensures HasPrefix("=" + value, "=") && HasPrefix("!=" + value, "!=")
  {
    hide Trimmed;
    var s: Bytes := "=" + value;
    assert s[1..] == value && s[1] == value[0] && TokenChar(value[0]);
    assert s[..1] == "=" && ("!=" + value)[..2] == "!=";
    if HasPrefix(s, "==") { PrefixByte(s, "==", 1); }
    TokenHas(value, '=');
    hide Token, HasPrefix;
    NoMatch(value, "==");
    IndexStep(s, "==");
  }

  lemma {:induction false} BinaryParts(key: Bytes, op: Bytes, value: Bytes)
    requires Token(key) && Token(value) && op != [] && IsAscii(op[0]) && IsAscii(op[|op| - 1])
    ensures var e := key + (op + value);
            e[..|key|] == key && e[|key| + |op|..] == value && (' ' !in op ==> ' ' !in e) && Trimmed(e)
  {
    hide SpaceAtStart, SpaceAtEnd;
    Wrapped(key, op, value);
    TokenHas(key, ' ');
    TokenHas(value, ' ');
  }

  lemma {:induction false} ParseEquals(lower: Bytes -> Bytes, key: Bytes, value: Bytes)
    requires Lowering(lower) && Token(key) && Token(value)
    ensures ParseExpression(lower, key + ("=" + value)) == Good(Equals(key, value))
    ensures ParseExpression(lower, key + ("!=" + value)) == Good(NotEquals(key, value))
  {
    hide Index, TrimSpace, ParseExpression, Lowering, Trimmed;
    OperatorAt(key, value);
    BinaryParts(key, "=", value);
    BinaryParts(key, "!=", value);
    TokenTrimmed(key);
    TokenTrimmed(value);
    SimpleParse(lower, key + ("=" + value));
    SimpleParse(lower, key + ("!=" + value));
  }

  lemma {:induction false} ParseKeyOnly(lower: Bytes -> Bytes, key: Bytes)
    requires Lowering(lower) && Token(key)
    ensures ParseExpression(lower, key) == Good(Exists(key))
    ensures ParseExpression(lower, "!" + key) == Good(NotExists(key))
  {
    TokenHas(key, '=');
    TokenHas(key, '!');
    TokenHas(key, ' ');
    TokenTrimmed(key);
    assert TokenChar(key[0]) && key[0] in key;
    NoMatch(key, "!=");
    NoMatch(key, "==");
    NoMatch(key, "=");
    var s: Bytes := "!" + key;
    assert s[0] == '!' && s[1..] == key;
    NoMatch(s, "==");
    NoMatch(s, "=");
    BangOnly(key);
    RenderedTrimmed(NotExists(key));
    hide Index, TrimSpace, ParseExpression, Lowering, Trimmed;
    SimpleParse(lower, key);
    SimpleParse(lower, s);
  }

  lemma {:induction false} BangOnly(key: Bytes)
    requires Token(key)
    ensures Index("!" + key, "!=") == None && ' ' !in "!" + key && '=' !in "!" + key
  {
    TokenHas(key, '=');
    TokenHas(key, '!');
    TokenHas(key, ' ');
    hide Trimmed;
    var s: Bytes := "!" + key;
    assert s[1..] == key && s[1] == key[0] && TokenChar(key[0]);
    if HasPrefix(s, "!=") { PrefixByte(s, "!=", 1); }
    NoMatch(key, "!=");
    IndexStep(s, "!=");
  }

  // ---- Round trip: sets ----

  /** Distinct tokens come back as they are. */
  lemma {:induction false} ValuesBack(values: seq<Bytes>, seen: seq<Bytes>)
    requires forall i :: 0 <= i < |values| ==> Token(values[i])
    requires Distinct(seen + values)
    ensures DistinctValues(values, seen) == Some(seen + values)
    decreases |values|
  {
    if values == [] {
      assert seen + values == seen;
    } else {
      var first := values[0];
      TokenTrimmed(first);
      hide TrimSpace, Token;
      NotSeen(seen, values);
      assert seen + [first] + values[1..] == seen + values;
      ValuesBack(values[1..], seen + [first]);
    }
  }

  lemma NotSeen(seen: seq<Bytes>, values: seq<Bytes>)
    requires Distinct(seen + values) && values != []
    ensures values[0] !in seen
  {
    var all := seen + values;
    forall i | 0 <= i < |seen| ensures seen[i] != values[0] {
      assert all[i] == seen[i] && all[|seen|] == values[0];
    }
  }

  lemma {:induction false} SetValuesBack(values: seq<Bytes>)
    requires values != [] && Distinct(values) && forall i :: 0 <= i < |values| ==> Token(values[i])
    ensures SetValues("(" + (Join(values, ',') + ")")) == Some(values)
  {
    forall i | 0 <= i < |values| ensures ',' !in values[i] { TokenHas(values[i], ','); }
    SplitJoin(values, ',');
    assert [] + values == values;
    ValuesBack(values, []);
    hide Token, Join, Split, DistinctValues, TrimSpace;
    ListText(Join(values, ','));
  }

  /** The set operator of an expression is found where the lowered key ends. */
  lemma {:induction false} SetOperatorAt(lower: Bytes -> Bytes, key: Bytes, token: Bytes, rest: Bytes)
    requires Lowering(lower) && ' ' !in key && token != [] && token[0] == ' ' && lower(token) == token
    requires rest != [] && IsAscii(rest[0])
    ensures Index(lower(key + (token + rest)), token) == Some(|lower(key)|)
  {
    LowerCut(lower, key, token + rest);
    LowerCut(lower, token, rest);
    assert ' ' !in lower(key);
    hide Lowering, HasPrefix, Index;
    IndexSkip(lower(key), token + lower(rest), token);
    StartsWithToken(token, lower(rest));
  }

  lemma StartsWithToken(token: Bytes, rest: Bytes)
    requires token != []
    ensures Index(token + rest, token) == Some(0)
  {
    assert (token + rest)[..|token|] == token;
  }

  /** In "key in (values)" there is no " notin". */
  lemma {:induction false} NoNotIn(lower: Bytes -> Bytes, key: Bytes, op: Bytes, inner: Bytes)
    requires Lowering(lower) && ' ' !in key && ' ' !in inner && op != [] && op[0] == ' ' && lower(op) == " in"
    ensures Index(lower(key + (op + (" (" + inner))), " notin") == None
  {
    LowerPieces(lower, key, op, inner);
    assert ' ' !in lower(key) && ' ' !in lower(inner);
    hide Lowering, Index, HasPrefix;
    IndexSkip(lower(key), " in" + (" (" + lower(inner)), " notin");
    TwoBlanks(lower(inner));
  }

  lemma {:induction false} LowerPieces(lower: Bytes -> Bytes, key: Bytes, op: Bytes, inner: Bytes)
    requires Lowering(lower) && op != [] && op[0] == ' '
    ensures lower(key + (op + (" (" + inner))) == lower(key) + (lower(op) + (" (" + lower(inner)))
  {
    OperatorsStay(lower);
    LowerCut(lower, key, op + (" (" + inner));
    LowerCut(lower, op, " (" + inner);
    LowerCut(lower, " (", inner);
  }

  lemma {:induction false} OperatorsStay(lower: Bytes -> Bytes)
    requires Lowering(lower)
    ensures lower(" in") == " in" && lower(" notin") == " notin" && lower(" (") == " ("
  {
    hide Lowering;
    LowerAscii(lower, " in");
    LowerAscii(lower, " notin");
    LowerAscii(lower, " (");
    assert Lower(" in") == " in" && Lower(" notin") == " notin" && Lower(" (") == " (";
  }

  lemma {:induction false} TwoBlanks(inner: Bytes)
    requires ' ' !in inner
    ensures Index(" in" + (" (" + inner), " notin") == None
  {
    var s: Bytes := " in" + (" (" + inner);
    var t: Bytes := " (" + inner;
    if HasPrefix(s, " notin") { PrefixByte(s, " notin", 1); }
    if HasPrefix(t, " notin") { PrefixByte(t, " notin", 1); }
    hide Index, HasPrefix;
    assert s[1..] == "in" + t && t[1..] == "(" + inner;
    IndexStep(s, " notin");
    IndexSkip("in", t, " notin");
    IndexStep(t, " notin");
    NoMatch("(" + inner, " notin");
  }

  /** The text behind a set operator, trimmed, is the parenthesised list. */
  lemma {:induction false} ListText(inner: Bytes)
    ensures TrimSpace(" (" + (inner + ")")) == "(" + (inner + ")")
    ensures var text := "(" + (inner + ")");
            |text| >= 2 && text[0] == '(' && text[|text| - 1] == ')' && text[1..|text| - 1] == inner
  {
    hide SpaceAtStart, SpaceAtEnd, TrimSpace;
    var text: Bytes := "(" + (inner + ")");
    assert " (" + (inner + ")") == " " + text && (" " + text)[1..] == text;
    assert text[0] == '(' && text[|text| - 1] == ')';
    AsciiStart(text);
    AsciiEnd(text);
    TrimmedStays(text);
    BlankGoes(text);
  }

  lemma BlankGoes(text: Bytes)
    ensures TrimSpace(" " + text) == TrimSpace(text)
  {
    assert (" " + text)[1..] == text;
  }

  lemma BlankBehindGoes(text: Bytes)
    requires text != [] && Trimmed(text)
    ensures TrimSpace(text + " ") == text
  {
    var s: Bytes := text + " ";
    assert s[..|s| - 1] == text && SpaceAtEnd(s) == 1;
    StartStays(text, " ");
    TrimmedStays(text);
  }

  lemma AtOperator(key: Bytes, token: Bytes, rest: Bytes)
    ensures var e := key + (token + rest);
            |key| + |token| <= |e| && e[..|key|] == key && e[|key| + |token|..] == rest
  {}

  /** What a key may do to its own lowering: stay as long as it is, or get one byte longer. */
  predicate KeyFits(lower: Bytes -> Bytes, key: Bytes) {
    |key| <= |lower(key)| <= |key| + 1
  }

  /** The text of a set requirement behind its operator. */
  function SetText(values: seq<Bytes>): (text: Bytes)
    ensures |text| >= 3 && text[0] == ' ' && text[1] == '('
  {
    " (" + (Join(values, ',') + ")")
  }

  /** Cut where the key ends, or one byte later at the blank, the expression falls into key and values. */
  lemma {:induction false} ParseSetFits(lower: Bytes -> Bytes, key: Bytes, token: Bytes, values: seq<Bytes>,
                                        negated: bool)
    requires token != [] && token[0] == ' ' && Token(key) && KeyFits(lower, key)
    requires var e := key + (token + SetText(values)); Index(lower(e), token) == Some(|lower(key)|)
    requires SetValues(TrimSpace(SetText(values))) == Some(values)
    ensures ParseSet(lower, key + (token + SetText(values)), token, negated) ==
            Good(if negated then NotIn(key, values) else In(key, values))
  {
    var rest := SetText(values);
    var e, m := key + (token + rest), |lower(key)|;
    hide Index, SetText, SetValues, TrimSpace, Trimmed;
    TokenTrimmed(key);
    AtOperator(key, token, rest);
    if m == |key| {
    } else {
      assert e[..m] == key + " " && e[m + |token|..] == rest[1..];
      BlankBehindGoes(key);
      assert " " + rest[1..] == rest;
      BlankGoes(rest[1..]);
    }
  }

  /** Cut in the middle of the key, it gives a shorter key if anything. */
  lemma {:induction false} ParseSetEarly(lower: Bytes -> Bytes, e: Bytes, token: Bytes, negated: bool, m: nat,
                                         r: Requirement)
    requires token != [] && Index(lower(e), token) == Some(m) && m < |r.key|
    ensures ParseSet(lower, e, token, negated) != Good(r)
  {
    hide Index, SetValues;
  }

  /** Cut behind the opening parenthesis, it is rejected, unless the position runs past the end of the expression. */
  lemma {:induction false} ParseSetLate(lower: Bytes -> Bytes, key: Bytes, token: Bytes, values: seq<Bytes>,
                                        negated: bool, m: nat)
    requires |token| >= 2 && IsAscii(token[1]) && !IsSpace(token[1]) && |key| + 2 <= m
    requires forall i :: 0 <= i < |values| ==> Token(values[i])
    requires Index(lower(key + (token + SetText(values))), token) == Some(m)
    ensures ParseSet(lower, key + (token + SetText(values)), token, negated) ==
            if m + |token| <= |key + (token + SetText(values))| then Bad else Panic
  {
    var e := key + (token + SetText(values));
    hide Index, TrimSpace, SetText, IsSpace, Token;
    if m <= |e| {
      InToken(key, token, SetText(values), m);
      TrimMembers(e[..m], token[1]);
    }
    if m + |token| <= |e| {
      NoOpening(key, token, values, m);
      TrimMembers(e[m + |token|..], '(');
      NotParenthesised(TrimSpace(e[m + |token|..]));
    }
    hide SetValues;
  }

  lemma NotParenthesised(text: Bytes)
    requires '(' !in text
    ensures SetValues(text) == None
  {}

  lemma InToken(key: Bytes, token: Bytes, rest: Bytes, m: nat)
    requires |token| >= 2 && |key| + 2 <= m <= |key + (token + rest)|
    ensures token[1] in (key + (token + rest))[..m]
  {
    assert (key + (token + rest))[..m][|key| + 1] == token[1];
  }

  lemma {:induction false} NoOpening(key: Bytes, token: Bytes, values: seq<Bytes>, m: nat)
    requires forall i :: 0 <= i < |values| ==> Token(values[i])
    requires |key| + 2 <= m && m + |token| <= |key + (token + SetText(values))|
    ensures '(' !in (key + (token + SetText(values)))[m + |token|..]
  {
    JoinChars(values);
    var inner := Join(values, ',');
    hide Join, Token;
    var e := key + (token + SetText(values));
    var start := |key| + |token| + 2;
    forall i | start <= i < |e| ensures e[i] != '(' {
      assert e[i] == (inner + ")")[i - start];
    }
  }

  /** A rendered set requirement, with its own operator, parses back exactly when its key fits. */
  lemma {:induction false} ParseSetBack(lower: Bytes -> Bytes, key: Bytes, token: Bytes, values: seq<Bytes>,
                                        negated: bool)
    requires Lowering(lower) && Token(key) && WellFormedSet(values)
    requires |token| >= 2 && token[0] == ' ' && lower(token) == token && IsAscii(token[1]) && !IsSpace(token[1])
    ensures var e, m := key + (token + SetText(values)), |lower(key)|;
            && ParseSet(lower, e, token, negated) != NotASet
            && (ParseSet(lower, e, token, negated) == Good(if negated then NotIn(key, values) else In(key, values)) <==>
                  KeyFits(lower, key))
            && (m >= |key| + 2 ==> ParseSet(lower, e, token, negated) == if m + |token| <= |e| then Bad else Panic)
  {
    assert ' ' !in key by { TokenHas(key, ' '); }
    SetValuesBack(values);
    ListText(Join(values, ','));
    var m := |lower(key)|;
    SetOperatorAt(lower, key, token, SetText(values));
    hide Index, TrimSpace, Join, SetValues, Token, Distinct, ParseSet, SetText, Lowering;
    var r := if negated then NotIn(key, values) else In(key, values);
    if m < |key| {
      ParseSetEarly(lower, key + (token + SetText(values)), token, negated, m, r);
    } else if m <= |key| + 1 {
      ParseSetFits(lower, key, token, values, negated);
    } else {
      ParseSetLate(lower, key, token, values, negated, m);
    }
    ParseSetFound(lower, key + (token + SetText(values)), token, negated);
  }

  lemma {:induction false} ParseSetFound(lower: Bytes -> Bytes, e: Bytes, token: Bytes, negated: bool)
    requires token != [] && Index(lower(e), token).Some?
    ensures ParseSet(lower, e, token, negated) != NotASet
  {
    hide Index, SetValues, TrimSpace;
  }

  /** A rendered set requirement, put together around its operator. */
  lemma {:induction false} RenderedSet(key: Bytes, values: seq<Bytes>)
    ensures Render(In(key, values)) == key + (" in" + SetText(values))
    ensures Render(NotIn(key, values)) == key + (" notin" + SetText(values))
  {
    var inner := Join(values, ',') + ")";
    assert " in (" + inner == " in" + (" (" + inner) && " notin (" + inner == " notin" + (" (" + inner);
  }

  lemma {:induction false} InnerHasNoBlank(values: seq<Bytes>)
    requires forall i :: 0 <= i < |values| ==> Token(values[i])
    ensures ' ' !in Join(values, ',') + ")"
  {
    JoinChars(values);
    var inner := Join(values, ',');
    hide Join;
    forall i | 0 <= i < |inner| ensures inner[i] != ' ' { assert inner[i] == ',' || TokenChar(inner[i]); }
  }

  lemma {:induction false} ParseIn(lower: Bytes -> Bytes, key: Bytes, values: seq<Bytes>)
    requires Lowering(lower) && WellFormed(In(key, values))
    ensures ParseExpression(lower, Render(In(key, values))) ==
            ParseSet(lower, key + (" in" + SetText(values)), " in", false)
    ensures ParseExpression(lower, Render(In(key, values))) == Good(In(key, values)) <==> KeyFits(lower, key)
  {
    RenderedTrimmed(In(key, values));
    RenderedSet(key, values);
    TokenHas(key, ' ');
    InnerHasNoBlank(values);
    OperatorsStay(lower);
    NoNotIn(lower, key, " in", Join(values, ',') + ")");
    hide Lowering, Index, TrimSpace, Join, Token, Distinct, Trimmed, Render;
    ParseSetBack(lower, key, " in", values, false);
  }

  lemma {:induction false} ParseNotIn(lower: Bytes -> Bytes, key: Bytes, values: seq<Bytes>)
    requires Lowering(lower) && WellFormed(NotIn(key, values))
    ensures ParseExpression(lower, Render(NotIn(key, values))) == Good(NotIn(key, values)) <==> KeyFits(lower, key)
  {
    RenderedTrimmed(NotIn(key, values));
    RenderedSet(key, values);
    OperatorsStay(lower);
    hide Lowering, Index, TrimSpace, Join, Token, Distinct, Trimmed, Render, SetText, ParseSet;
    ParseSetBack(lower, key, " notin", values, true);
  }

  /** A requirement whose key is looked for in the lowered text. */
  predicate ReadsBack(lower: Bytes -> Bytes, r: Requirement) {
    r.In? || r.NotIn? ==> KeyFits(lower, r.key)
  }

  /** A rendered requirement parses to itself, except a set one whose key changes its length too much when lowered. */
  lemma {:induction false} ParsesBack(lower: Bytes -> Bytes, r: Requirement)
    requires Lowering(lower) && WellFormed(r)
    ensures ParseExpression(lower, Render(r)) == Good(r) <==> ReadsBack(lower, r)
  {
    hide ParseExpression, Token, Distinct, Lowering, KeyFits;
    match r
    case Exists(key) => ParseKeyOnly(lower, key);
    case NotExists(key) => ParseKeyOnly(lower, key);
    case Equals(key, value) => ParseEquals(lower, key, value);
    case NotEquals(key, value) => ParseEquals(lower, key, value);
    case In(key, values) => ParseIn(lower, key, values);
    case NotIn(key, values) => ParseNotIn(lower, key, values);
  }

  lemma {:induction false} AllParseBack(lower: Bytes -> Bytes, list: seq<Requirement>)
    requires Lowering(lower) && forall i :: 0 <= i < |list| ==> WellFormed(list[i])
    ensures ParseAll(lower, Rendered(list)) == Accepted(list) <==>
              forall i :: 0 <= i < |list| ==> ReadsBack(lower, list[i])
  {
    hide ParseExpression, Render, WellFormed, Lowering, ReadsBack;
    if list != [] {
      ParsesBack(lower, list[0]);
      AllParseBack(lower, list[1..]);
      assert Rendered(list)[1..] == Rendered(list[1..]);
      assert [list[0]] + list[1..] == list;
    }
  }

  /**
   * Selector round trip: a list of requirements over tokens of any bytes, rendered in the documented grammar and joined
   * with commas, is read back as the same list exactly when no key of a set requirement gets shorter, or more than one
   * byte longer, when it is lowered.
   */
  lemma {:induction false} SelectorRoundTripIff(lower: Bytes -> Bytes, list: seq<Requirement>)
    requires Lowering(lower) && forall i :: 0 <= i < |list| ==> WellFormed(list[i])
    ensures ParseSelector(lower, RenderAll(list)) == Accepted(list) <==>
              forall i :: 0 <= i < |list| ==> ReadsBack(lower, list[i])
  {
    hide Lowering, WellFormed, ReadsBack, ParseAll, Render, Trimmed;
    if list != [] {
      ParsedAll(lower, list);
      AllParseBack(lower, list);
    }
  }

  lemma {:induction false} ParsedAll(lower: Bytes -> Bytes, list: seq<Requirement>)
    requires list != [] && forall i :: 0 <= i < |list| ==> WellFormed(list[i])
    ensures ParseSelector(lower, RenderAll(list)) == ParseAll(lower, Rendered(list))
  {
    hide WellFormed, ParseAll, Render, RenderAll, SplitScan;
    AllTrimmed(list);
    TrimmedStays(RenderAll(list));
    SplitsBack(list);
  }

  predicate AsciiKey(r: Requirement) {
    forall i :: 0 <= i < |r.key| ==> IsAscii(r.key[i])
  }

  /** Over tokens with ASCII keys the round trip always works. */
  lemma {:induction false} SelectorRoundTrip(lower: Bytes -> Bytes, list: seq<Requirement>)
    requires Lowering(lower) && forall i :: 0 <= i < |list| ==> WellFormed(list[i]) && AsciiKey(list[i])
    ensures ParseSelector(lower, RenderAll(list)) == Accepted(list)
  {
    hide WellFormed, ParseSelector, RenderAll;
    forall i | 0 <= i < |list| ensures ReadsBack(lower, list[i]) { LowerAscii(lower, list[i].key); }
    SelectorRoundTripIff(lower, list);
  }

  // ---- What is rejected, and other spellings ----

  /** Some item is this value with blanks around it. */
  ghost predicate Lists(items: seq<Bytes>, value: Bytes) {
    exists i :: 0 <= i < |items| && TrimSpace(items[i]) == value
  }

  /** The values of a set, in the terms of the list they come from: none is blank, each is there once. */
  lemma {:induction false} ValuesMeans(items: seq<Bytes>, seen: seq<Bytes>)
    requires Distinct(seen)
    ensures DistinctValues(items, seen).None? <==> Lists(items, [])
    ensures DistinctValues(items, seen).Some? ==>
              var values := DistinctValues(items, seen).value;
              && Distinct(values)
              && forall v :: v in values <==> v in seen || Lists(items, v)
    decreases |items|
  {
    hide TrimSpace, Lists;
    if items == [] {
      forall v ensures !Lists(items, v) { ListsMore(items, v); }
    } else {
      var value, rest := TrimSpace(items[0]), items[1..];
      forall v ensures Lists(items, v) <==> value == v || Lists(rest, v) { ListsMore(items, v); }
      if value != [] { ValuesMeans(rest, if value in seen then seen else seen + [value]); }
    }
  }

  lemma ListsMore(items: seq<Bytes>, v: Bytes)
    ensures Lists(items, v) <==> items != [] && (TrimSpace(items[0]) == v || Lists(items[1..], v))
  {
    hide TrimSpace;
    if i :| 0 <= i < |items| && TrimSpace(items[i]) == v && i > 0 { assert items[1..][i - 1] == items[i]; }
    if i :| 0 <= i < |items| - 1 && TrimSpace(items[1..][i]) == v { assert items[i + 1] == items[1..][i]; }
  }

  /** Opening minus closing parentheses. */
  function Net(s: Bytes): int {
    if s == [] then 0
    else (if s[0] == '(' then 1 else if s[0] == ')' then -1 else 0) + Net(s[1..])
  }

  /** Text is only split if its parentheses balance, and then into expressions none of which is blank. */
  lemma {:induction false} SplitNeedsBalance(rest: Bytes, current: Bytes, depth: nat)
    requires SplitScan(rest, current, depth).Some?
    ensures depth + Net(rest) == 0
    ensures forall i :: 0 <= i <= |rest| ==> depth + Net(rest[..i]) >= 0
    ensures var parts := SplitScan(rest, current, depth).value; forall i :: 0 <= i < |parts| ==> parts[i] != []
    decreases |rest|
  {
    hide TrimSpace;
    if rest != [] {
      var c, more := rest[0], rest[1..];
      if c == '(' { SplitNeedsBalance(more, current + [c], depth + 1); }
      else if c == ')' { SplitNeedsBalance(more, current + [c], depth - 1); }
      else if c == ',' && depth == 0 { SplitNeedsBalance(more, [], 0); }
      else { SplitNeedsBalance(more, current + [c], depth); }
      hide SplitScan;
      forall i | 0 <= i <= |rest| ensures depth + Net(rest[..i]) >= 0 {
        if i > 0 { assert rest[..i][1..] == more[..i - 1]; }
      }
    }
  }

  /** A missing expression is an error: nothing between two commas, or behind the last one, or in front of the first. */
  lemma EmptyExpression(r: Requirement, rest: Bytes)
    requires WellFormed(r)
    ensures SplitScan(Render(r) + ("," + ("," + rest)), [], 0) == None
    ensures SplitScan(Render(r) + ",", [], 0) == None
    ensures SplitScan("," + rest, [], 0) == None
  {
    hide WellFormed, Render, TrimSpace;
    assert TrimSpace([]) == [] by { TrimmedStays([]); }
    CommaNext(rest, []);
    CommaNext([], Render(r));
    CommaNext("," + rest, Render(r));
    ScanRendered(r, "," + ("," + rest));
    ScanRendered(r, ",");
    assert "," + [] == ",";
    assert SplitScan([], [], 0) == None;
  }

  lemma CommaNext(rest: Bytes, current: Bytes)
    ensures SplitScan("," + rest, current, 0) ==
            if TrimSpace(current) == [] then None else Prepend([TrimSpace(current)], SplitScan(rest, [], 0))
  {
    var s: Bytes := "," + rest;
    assert s[0] == ',' && s[1..] == rest;
  }

  /** A comparison without a key or a value is an error, and so is a lone exclamation mark. */
  lemma {:induction false} EmptyOperand(lower: Bytes -> Bytes, word: Bytes)
    requires Lowering(lower) && Token(word)
    ensures ParseExpression(lower, word + "=") == Bad && ParseExpression(lower, "=" + word) == Bad
    ensures ParseExpression(lower, "!") == Bad
  {
    hide Index, TrimSpace, ParseExpression, Lowering, Trimmed, SpaceAtStart, SpaceAtEnd;
    TokenHas(word, ' ');
    EmptySides(word);
    EmptyTrimmed();
    TokenTrimmed(word);
    SimpleParse(lower, word + "=");
    SimpleParse(lower, "=" + word);
    SimpleParse(lower, "!");
  }

  lemma EmptyTrimmed()
    ensures Trimmed([]) && TrimSpace([]) == []
  {}

  lemma EmptySides(word: Bytes)
    requires Token(word)
    ensures Trimmed(word + "=") && Trimmed("=" + word) && Trimmed("!")
    ensures ParseWithoutSet(word + "=") == Bad && ParseWithoutSet("=" + word) == Bad && ParseWithoutSet("!") == Bad
  {
    hide SpaceAtStart, SpaceAtEnd, IsWideSpace;
    var equals: Bytes := "=";
    assert word + (equals + []) == word + "=" && [] + (equals + word) == "=" + word;
    Wrapped(word, equals, []);
    Wrapped([], equals, word);
    AsciiStart("!");
    AsciiEnd("!");
    EmptyTrimmed();
    TokenHas(word, '=');
    TokenHas(word, '!');
    hide Token, Trimmed, TrimSpace;
    NoMatch(word + "=", "!=");
    NoMatch("=" + word, "!=");
    OneEquals(word);
    NoMatch("!", "==");
    NoMatch("!", "=");
    BangAlone();
  }

  lemma BangAlone()
    ensures Index("!", "!=") == None
  {
    var s: Bytes := "!";
    assert s[1..] == [];
  }

  lemma OneEquals(word: Bytes)
    requires '=' !in word && word != []
    ensures Index(word + "=", "==") == None && Index(word + "=", "=") == Some(|word|)
    ensures Index("=" + word, "==") == None && Index("=" + word, "=") == Some(0)
  {
    var one: Bytes := "=";
    var back := one + word;
    assert one[1..] == [] && back[1..] == word && back[..1] == one;
    if HasPrefix(back, "==") { PrefixByte(back, "==", 1); }
    hide HasPrefix;
    IndexSkip(word, one, "==");
    IndexSkip(word, one, "=");
    IndexStep(one, "==");
    IndexStep(one, "=");
    IndexStep(back, "==");
    IndexStep(back, "=");
    NoMatch(word, "==");
  }

  /** Two equals signs mean the same as one. */
  lemma {:induction false} DoubleEquals(lower: Bytes -> Bytes, key: Bytes, value: Bytes)
    requires Lowering(lower) && Token(key) && Token(value)
    ensures ParseExpression(lower, key + ("==" + value)) == Good(Equals(key, value))
  {
    hide Index, TrimSpace, ParseExpression, Lowering, Trimmed;
    var op: Bytes := "==";
    assert op[0] == '=' && op[1] == '=';
    DoubleEqualsAt(key, value);
    BinaryParts(key, op, value);
    TokenTrimmed(key);
    TokenTrimmed(value);
    SimpleParse(lower, key + (op + value));
  }

  lemma DoubleEqualsAt(key: Bytes, value: Bytes)
    requires Token(key) && Token(value)
    ensures Index(key + ("==" + value), "!=") == None && Index(key + ("==" + value), "==") == Some(|key|)
  {
    hide Index, Token;
    TokenHas(key, '=');
    TokenHas(key, '!');
    TokenHas(value, '!');
    var rest: Bytes := "==" + value;
    assert rest[..2] == "==";
    assert HasPrefix(rest, "==");
    hide HasPrefix;
    assert '!' !in key + rest;
    NoMatch(key + rest, "!=");
    IndexSkip(key, rest, "==");
    IndexStep(rest, "==");
  }

  /** The set operators may be written in capitals. */
  lemma {:induction false} UpperOperator(lower: Bytes -> Bytes, key: Bytes, values: seq<Bytes>)
    requires Lowering(lower) && WellFormed(In(key, values)) && |lower(key)| == |key|
    ensures ParseExpression(lower, key + (" IN" + SetText(values))) == Good(In(key, values))
  {
    var op, rest: Bytes := " IN", SetText(values);
    var e := key + (op + rest);
    LowerAscii(lower, op);
    assert Lower(op) == " in";
    TokenHas(key, ' ');
    InnerHasNoBlank(values);
    NoNotIn(lower, key, op, Join(values, ',') + ")");
    TokenTrimmed(key);
    SetValuesBack(values);
    ListText(Join(values, ','));
    UpperTrimmed(key, op, rest);
    UpperAt(lower, key, op, rest);
    AtOperator(key, op, rest);
    hide Lowering, Index, TrimSpace, Join, Token, Distinct, Trimmed, SetText, SetValues, Lower;
  }

  lemma {:induction false} UpperTrimmed(key: Bytes, op: Bytes, rest: Bytes)
    requires Token(key) && op != [] && op[0] == ' ' && rest != [] && rest[|rest| - 1] == ')'
    ensures TrimSpace(key + (op + rest)) == key + (op + rest)
  {
    hide SpaceAtStart, SpaceAtEnd;
    var tail := op + rest;
    assert tail[|tail| - 1] == ')' && tail + [] == tail;
    Wrapped(key, tail, []);
    TrimmedStays(key + tail);
  }

  lemma {:induction false} UpperAt(lower: Bytes -> Bytes, key: Bytes, op: Bytes, rest: Bytes)
    requires Lowering(lower) && ' ' !in key && op != [] && op[0] == ' ' && lower(op) == " in"
    requires rest != [] && IsAscii(rest[0])
    ensures Index(lower(key + (op + rest)), " in") == Some(|lower(key)|)
  {
    LowerCut(lower, key, op + rest);
    LowerCut(lower, op, rest);
    assert ' ' !in lower(key);
    hide Lowering, HasPrefix, Index;
    IndexSkip(lower(key), " in" + lower(rest), " in");
    StartsWithToken(" in", lower(rest));
  }

  /** A set without its parentheses is an error. */
  lemma {:induction false} NoParentheses(lower: Bytes -> Bytes, key: Bytes, value: Bytes)
    requires Lowering(lower) && Token(key) && Token(value) && |lower(key)| == |key|
    ensures ParseExpression(lower, key + (" notin" + (" " + value))) == Bad
  {
    var op, rest: Bytes := " notin", " " + value;
    OperatorsStay(lower);
    TokenHas(key, ' ');
    TokenHas(value, '(');
    TokenTrimmed(key);
    TokenTrimmed(value);
    BlankGoes(value);
    SetOperatorAt(lower, key, op, rest);
    AtOperator(key, op, rest);
    NotParenthesised(value);
    BareTrimmed(key, op, value);
    hide Lowering, Index, TrimSpace, Token, Trimmed, SetValues;
  }

  lemma {:induction false} BareTrimmed(key: Bytes, op: Bytes, value: Bytes)
    requires Token(key) && Token(value) && op != [] && op[0] == ' '
    ensures TrimSpace(key + (op + (" " + value))) == key + (op + (" " + value))
  {
    hide SpaceAtStart, SpaceAtEnd;
    var middle: Bytes := op + " ";
    assert key + (op + (" " + value)) == key + (middle + value) && middle[|middle| - 1] == ' ';
    Wrapped(key, middle, value);
    TrimmedStays(key + (middle + value));
  }

  // ---- The failing keys ----

  /** A lowering that knows, besides ASCII, U+023A with its two bytes, whose lower case U+2C65 has three. */
  function LowerWide(s: Bytes): Bytes {
    if s == [] then []
    else if |s| >= 2 && s[0] == '\U{C8}' && s[1] == '\U{BA}' then
      ['\U{E2}', '\U{B1}', '\U{A5}'] + LowerWide(s[2..])
    else [LowerByte(s[0])] + LowerWide(s[1..])
  }

  predicate StartsWide(s: Bytes) {
    |s| >= 2 && s[0] == '\U{C8}' && s[1] == '\U{BA}'
  }

  lemma WideStep(s: Bytes)
    ensures StartsWide(s) ==> LowerWide(s) == ['\U{E2}', '\U{B1}', '\U{A5}'] + LowerWide(s[2..])
    ensures !StartsWide(s) && s != [] ==> LowerWide(s) == [LowerByte(s[0])] + LowerWide(s[1..])
    ensures s == [] ==> LowerWide(s) == []
  {}

  lemma {:induction false} WideCut(a: Bytes, b: Bytes)
    requires CutAtAscii(a, b)
    ensures LowerWide(a + b) == LowerWide(a) + LowerWide(b)
  {
    hide LowerWide;
    var s := a + b;
    WideStep(a);
    WideStep(s);
    if a == [] {
      assert s == b;
    } else if b == [] {
      WideStep(b);
      assert s == a;
    } else if StartsWide(a) {
      assert s[2..] == a[2..] + b;
      WideCut(a[2..], b);
    } else {
      assert s[1..] == a[1..] + b;
      WideCut(a[1..], b);
    }
  }

  lemma {:induction false} WideHasNoBlank(s: Bytes)
    requires ' ' !in s
    ensures ' ' !in LowerWide(s)
  {
    hide LowerWide;
    WideStep(s);
    if StartsWide(s) {
      WideHasNoBlank(s[2..]);
    } else if s != [] {
      assert s[0] in s;
      WideHasNoBlank(s[1..]);
    }
  }

  lemma WideSingle(c: Byte)
    ensures LowerWide([c]) == [LowerByte(c)]
  {
    var s: Bytes := [c];
    assert s[1..] == [];
  }

  lemma {:induction false} WideIsLowering()
    ensures Lowering(LowerWide)
  {
    hide LowerWide, CutAtAscii, LowerByte, IsAscii;
    var lower: Bytes -> Bytes := LowerWide;
    forall a, b | CutAtAscii(a, b) ensures lower(a + b) == lower(a) + lower(b) { WideCut(a, b); }
    forall c: Byte | IsAscii(c) ensures lower([c]) == [LowerByte(c)] { WideSingle(c); }
    forall s | ' ' !in s ensures ' ' !in lower(s) { WideHasNoBlank(s); }
  }

  /** The character U+023A, n times. */
  function Wide(n: nat): (s: Bytes)
    ensures |s| == 2 * n
    ensures n > 0 ==> StartsWide(s)
    ensures forall i :: 0 <= i < |s| ==> s[i] == '\U{C8}' || s[i] == '\U{BA}'
  {
    if n == 0 then [] else ['\U{C8}', '\U{BA}'] + Wide(n - 1)
  }

  lemma {:induction false} WideLength(n: nat)
    ensures |LowerWide(Wide(n))| == 3 * n
  {
    hide LowerWide;
    WideStep(Wide(n));
    if n > 0 {
      assert Wide(n)[2..] == Wide(n - 1);
      WideLength(n - 1);
    }
  }

  lemma WideIsNoSpace(c: Bytes)
    requires c != [] && (c[0] == '\U{C8}' || c[0] == '\U{BA}')
    ensures !IsWideSpace(c)
  {}

  lemma {:induction false} WideIsToken(n: nat)
    requires n > 0
    ensures Token(Wide(n))
  {
    hide Wide, IsWideSpace;
    var s := Wide(n);
    WideIsNoSpace(s[..2]);
    WideIsNoSpace(s[|s| - 2..]);
    if n > 1 {
      WideIsNoSpace(s[..3]);
      WideIsNoSpace(s[|s| - 3..]);
    }
  }

  lemma OneValue(value: Bytes)
    requires Token(value)
    ensures WellFormedSet([value]) && |SetText([value])| == |value| + 3
  {
    assert Join([value], ',') == value;
  }

  /** What the parser makes of a set requirement for the label called U+023A n times. */
  lemma {:induction false} WideExpression(n: nat, value: Bytes)
    requires n > 0 && Token(value)
    ensures var r := In(Wide(n), [value]);
            && Lowering(LowerWide) && WellFormed(r)
            && ParseExpression(LowerWide, Render(r)) ==
               if n == 1 then Good(r) else if n <= |value| + 3 then Bad else Panic
  {
    hide Lowering, Wide, LowerWide, Token, WellFormedSet, ParseExpression, Render, SetText, ParseSet;
    WideIsLowering();
    WideIsToken(n);
    WideLength(n);
    OneValue(value);
    OperatorsStay(LowerWide);
    var key, token: Bytes := Wide(n), " in";
    ParseIn(LowerWide, key, [value]);
    ParseSetBack(LowerWide, key, token, [value], false);
    assert |key + (token + SetText([value]))| == 2 * n + |value| + 6;
  }

  /**
   * The failing case: the selector for the label called U+023A n times to be in a set of one value. Once it is read
   * back; repeated, it is rejected as long as the value has at least n - 3 bytes, and otherwise the parser slices out
   * of range: "in (a)" does so from five times on.
   */
  lemma {:induction false} WideKeyFails(n: nat, value: Bytes)
    requires n > 0 && Token(value)
    ensures var r := In(Wide(n), [value]);
            && Lowering(LowerWide) && WellFormed(r)
            && ParseSelector(LowerWide, RenderAll([r])) ==
               if n == 1 then Accepted([r]) else if n <= |value| + 3 then Rejected else Panics
  {
    hide Lowering, Wide, LowerWide, ParseSelector, RenderAll, Token, ParseExpression, Render, WellFormed;
    var r := In(Wide(n), [value]);
    WideExpression(n, value);
    ParsedAll(LowerWide, [r]);
    OneExpression(LowerWide, r);
  }

  lemma {:induction false} OneExpression(lower: Bytes -> Bytes, r: Requirement)
    ensures ParseAll(lower, Rendered([r])) ==
            match ParseExpression(lower, Render(r))
            case Good(requirement) => Accepted([requirement])
            case Panic => Panics
            case _ => Rejected
  {
    hide ParseExpression, Render;
    assert Rendered([r]) == [Render(r)] && [Render(r)][1..] == [];
  }
}
