/** The key-sorting JSON printer behind every store checksum.
  *
  * Texts are sequences of UTF-16 code units, as in JavaScript. A JSON object keeps its
  * members in insertion order, so that "the printer ignores key order" is a statement
  * about something the model can see.
  */
module CanonicalJson {

  type CodeUnit = u: int | 0 <= u < 0x10000
  type Text = seq<CodeUnit>

  datatype Member = Member(key: Text, value: Json)

  /** A parsed JSON value. A number is represented by the text that JSON.stringify gives it. */
  datatype Json =
    | Null
    | Bool(flag: bool)
    | Number(token: Text)
    | String(text: Text)
    | Array(items: seq<Json>)
    | Object(members: seq<Member>)

  const QUOTE: CodeUnit := '"' as int
  const BACKSLASH: CodeUnit := '\\' as int
  const COMMA: CodeUnit := ',' as int
  const COLON: CodeUnit := ':' as int
  const OPEN_ARRAY: CodeUnit := '[' as int
  const CLOSE_ARRAY: CodeUnit := ']' as int
  const OPEN_OBJECT: CodeUnit := '{' as int
  const CLOSE_OBJECT: CodeUnit := '}' as int
  const NULL_TEXT: Text := ['n' as int, 'u' as int, 'l' as int, 'l' as int]
  const TRUE_TEXT: Text := ['t' as int, 'r' as int, 'u' as int, 'e' as int]
  const FALSE_TEXT: Text := ['f' as int, 'a' as int, 'l' as int, 's' as int, 'e' as int]

  // ----- Well-formed values -----

  predicate NumberUnit(u: CodeUnit) {
    || '0' as int <= u <= '9' as int
    || u == '-' as int || u == '+' as int || u == '.' as int || u == 'e' as int
  }

  function Keys(members: seq<Member>): (keys: seq<Text>)
    ensures |keys| == |members|
    ensures forall i :: 0 <= i < |keys| ==> keys[i] == members[i].key
  {
    seq(|members|, i requires 0 <= i < |members| => members[i].key)
  }

  predicate Distinct(keys: seq<Text>) {
    forall i, j :: 0 <= i < j < |keys| ==> keys[i] != keys[j]
  }

  /** Numbers print as nonempty number tokens, and no object has the same key twice. */
  predicate WellFormed(v: Json) {
    match v
    case Null => true
    case Bool(_) => true
    case Number(token) => token != [] && forall i :: 0 <= i < |token| ==> NumberUnit(token[i])
    case String(_) => true
    case Array(items) => forall i :: 0 <= i < |items| ==> WellFormed(items[i])
    case Object(members) =>
      && Distinct(Keys(members))
      && forall i :: 0 <= i < |members| ==> WellFormed(members[i].value)
  }

  // ----- Quoted strings (section 7 of RFC 8259, as JSON.stringify writes them) -----

  predicate High(u: CodeUnit) { 0xD800 <= u < 0xDC00 }

  predicate Low(u: CodeUnit) { 0xDC00 <= u < 0xE000 }

  function HexDigit(d: int): CodeUnit
    requires 0 <= d < 16
  {
    if d < 10 then '0' as int + d else 'a' as int + d - 10
  }

  function UnicodeEscape(u: CodeUnit): Text {
    [BACKSLASH, 'u' as int, HexDigit(u / 4096), HexDigit(u / 256 % 16), HexDigit(u / 16 % 16), HexDigit(u % 16)]
  }

  /** One code unit that is not half of a surrogate pair. */
  function EscapeUnit(u: CodeUnit): Text {
    if u == 8 then [BACKSLASH, 'b' as int]
    else if u == 9 then [BACKSLASH, 't' as int]
    else if u == 10 then [BACKSLASH, 'n' as int]
    else if u == 12 then [BACKSLASH, 'f' as int]
    else if u == 13 then [BACKSLASH, 'r' as int]
    else if u == QUOTE then [BACKSLASH, QUOTE]
    else if u == BACKSLASH then [BACKSLASH, BACKSLASH]
    else if u < 0x20 || High(u) || Low(u) then UnicodeEscape(u)
    else [u]
  }

  function QuoteBody(s: Text): Text {
    if s == [] then []
    else if |s| >= 2 && High(s[0]) && Low(s[1]) then [s[0], s[1]] + QuoteBody(s[2..])
    else EscapeUnit(s[0]) + QuoteBody(s[1..])
  }

  function Quote(s: Text): Text {
    [QUOTE] + QuoteBody(s) + [QUOTE]
  }

  // ----- Key order (section 3.2.3 of RFC 8785: by UTF-16 code units) -----

  predicate Less(a: Text, b: Text) {
    b != [] && (a == [] || a[0] < b[0] || (a[0] == b[0] && Less(a[1..], b[1..])))
  }

  predicate Sorted(keys: seq<Text>) {
    forall i, j :: 0 <= i < j < |keys| ==> Less(keys[i], keys[j])
  }

  function Insert(key: Text, keys: seq<Text>): (r: seq<Text>)
    ensures forall k :: k in r <==> k == key || k in keys
  {
    if keys == [] then [key]
    else if Less(key, keys[0]) then [key] + keys
    else
      assert keys == [keys[0]] + keys[1..];
      [keys[0]] + Insert(key, keys[1..])
  }

  function SortKeys(keys: seq<Text>): (r: seq<Text>)
    ensures forall k :: k in r <==> k in keys
  {
    if keys == [] then []
    else
      assert keys == [keys[0]] + keys[1..];
      Insert(keys[0], SortKeys(keys[1..]))
  }

  // ----- The printer -----

  /** The value of a key; objects here are looked up only at keys they have. */
  function Lookup(members: seq<Member>, key: Text): (value: Json)
    requires key in Keys(members)
    ensures exists i :: 0 <= i < |members| && members[i] == Member(key, value)
  {
    if members[0].key == key then members[0].value
    else
      assert Keys(members)[1..] == Keys(members[1..]);
      Lookup(members[1..], key)
  }

  function Print(v: Json): Text
    decreases v, 0
  {
    match v
    case Null => NULL_TEXT
    case Bool(flag) => if flag then TRUE_TEXT else FALSE_TEXT
    case Number(token) => token
    case String(text) => Quote(text)
    case Array(items) => [OPEN_ARRAY] + PrintItems(items) + [CLOSE_ARRAY]
    case Object(members) => [OPEN_OBJECT] + PrintMembers(members, SortKeys(Keys(members))) + [CLOSE_OBJECT]
  }

  function PrintItems(items: seq<Json>): Text
    decreases items, 0
  {
    if items == [] then []
    else if |items| == 1 then Print(items[0])
    else Print(items[0]) + [COMMA] + PrintItems(items[1..])
  }

  function PrintMember(members: seq<Member>, key: Text): Text
    requires key in Keys(members)
    decreases members, 0
  {
    Quote(key) + [COLON] + Print(Lookup(members, key))
  }

  function PrintMembers(members: seq<Member>, keys: seq<Text>): Text
    requires forall k :: k in keys ==> k in Keys(members)
    decreases members, 1, |keys|
  {
    if keys == [] then []
    else if |keys| == 1 then PrintMember(members, keys[0])
    else PrintMember(members, keys[0]) + [COMMA] + PrintMembers(members, keys[1..])
  }

  // ----- Equality up to key order -----

  /** Same value, whatever order the members of its objects were inserted in. */
  ghost predicate SameUpToKeyOrder(a: Json, b: Json)
    decreases a
  {
    match a
    case Array(items) =>
      && b.Array?
      && |items| == |b.items|
      && forall i :: 0 <= i < |items| ==> SameUpToKeyOrder(items[i], b.items[i])
    case Object(members) =>
      && b.Object?
      && (forall k :: k in Keys(members) <==> k in Keys(b.members))
      && forall i, j :: 0 <= i < |members| && 0 <= j < |b.members| && members[i].key == b.members[j].key
                        ==> SameUpToKeyOrder(members[i].value, b.members[j].value)
    case _ => a == b
  }

  // ----- Key order is a strict total order, so sorting forgets the insertion order -----

  lemma {:induction false} LessTrichotomy(a: Text, b: Text)
    ensures Less(a, b) || a == b || Less(b, a)
    ensures !(Less(a, b) && (a == b || Less(b, a)))
  {
    if a != [] && b != [] && a[0] == b[0] {
      LessTrichotomy(a[1..], b[1..]);
      assert a == [a[0]] + a[1..] && b == [b[0]] + b[1..];
    }
  }

  /** They agree before position n; there a ends, or has the smaller unit. */
  predicate FirstDifference(a: Text, b: Text, n: nat) {
    n <= |a| && n < |b| && a[..n] == b[..n] && (n == |a| || a[n] < b[n])
  }

  lemma {:induction false} LessIsByFirstDifference(a: Text, b: Text)
    ensures Less(a, b) <==> exists n: nat :: FirstDifference(a, b, n)
  {
    if n: nat :| FirstDifference(a, b, n) {
      DifferenceMakesLess(a, b, n);
    }
    if Less(a, b) {
      var n := LessHasDifference(a, b);
    }
  }

  lemma {:induction false} DifferenceMakesLess(a: Text, b: Text, n: nat)
    requires FirstDifference(a, b, n)
    ensures Less(a, b)
  {
    if n > 0 {
      assert a[0] == a[..n][0] == b[..n][0] == b[0];
      assert a[1..][..n - 1] == a[..n][1..] && b[1..][..n - 1] == b[..n][1..];
      DifferenceMakesLess(a[1..], b[1..], n - 1);
    }
  }

  lemma {:induction false} LessHasDifference(a: Text, b: Text) returns (n: nat)
    requires Less(a, b)
    ensures FirstDifference(a, b, n)
  {
    n := 0;
    if a != [] && a[0] == b[0] {
      var m := LessHasDifference(a[1..], b[1..]);
      n := m + 1;
      assert a[..n] == [a[0]] + a[1..][..m] && b[..n] == [b[0]] + b[1..][..m];
    }
  }

  lemma {:induction false} LessTransitive(a: Text, b: Text, c: Text)
    requires Less(a, b) && Less(b, c)
    ensures Less(a, c)
  {
    if a != [] && a[0] == b[0] == c[0] {
      LessTransitive(a[1..], b[1..], c[1..]);
    }
  }

  lemma {:induction false} InsertKeepsSorted(key: Text, keys: seq<Text>)
    requires Sorted(keys) && key !in keys
    ensures Sorted(Insert(key, keys))
  {
    if keys != [] {
      LessTrichotomy(key, keys[0]);
      if Less(key, keys[0]) {
        forall j | 0 <= j < |keys| ensures Less(key, keys[j]) {
          if j > 0 { LessTransitive(key, keys[0], keys[j]); }
        }
      } else {
        var rest := Insert(key, keys[1..]);
        InsertKeepsSorted(key, keys[1..]);
        forall j | 0 <= j < |rest| ensures Less(keys[0], rest[j]) {
          assert rest[j] in rest;
        }
      }
    }
  }

  lemma {:induction false} SortKeysSorts(keys: seq<Text>)
    requires Distinct(keys)
    ensures Sorted(SortKeys(keys))
  {
    if keys != [] {
      SortKeysSorts(keys[1..]);
      InsertKeepsSorted(keys[0], SortKeys(keys[1..]));
    }
  }

  lemma SortedTailOmitsHead(a: seq<Text>)
    requires a != [] && Sorted(a)
    ensures a[0] !in a[1..]
  {
    LessTrichotomy(a[0], a[0]);
  }

  lemma {:induction false} SortedIsUnique(a: seq<Text>, b: seq<Text>)
    requires Sorted(a) && Sorted(b)
    requires forall k :: k in a <==> k in b
    ensures a == b
  {
    if a == [] {
      assert forall i :: 0 <= i < |b| ==> b[i] in b;
    } else {
      assert a[0] in a && a[0] in b;
      assert b[0] in b && b[0] in a;
      LessTrichotomy(a[0], b[0]);
      SortedTailOmitsHead(a);
      SortedTailOmitsHead(b);
      assert forall k :: k in a <==> k == a[0] || k in a[1..];
      assert forall k :: k in b <==> k == b[0] || k in b[1..];
      SortedIsUnique(a[1..], b[1..]);
    }
  }

  // ----- A reader for the printed texts: RFC 8259 without insignificant white space -----

  datatype Reading<T> = Got(value: T, rest: Text) | Refused

  /** The value of a hexadecimal digit in either case, or -1. */
  function HexValue(u: CodeUnit): (d: int)
    ensures -1 <= d < 16
  {
    if '0' as int <= u <= '9' as int then u - '0' as int
    else if 'a' as int <= u <= 'f' as int then u - 'a' as int + 10
    else if 'A' as int <= u <= 'F' as int then u - 'A' as int + 10
    else -1
  }

  /** What the letter after a backslash stands for, or -1 (section 7 of RFC 8259). */
  function Escaped(letter: CodeUnit): (u: int)
    ensures -1 <= u < 0x10000
  {
    if letter == '"' as int || letter == '\\' as int || letter == '/' as int then letter
    else if letter == 'b' as int then 8
    else if letter == 'f' as int then 12
    else if letter == 'n' as int then 10
    else if letter == 'r' as int then 13
    else if letter == 't' as int then 9
    else -1
  }

  /** One code unit of a string, raw or escaped. */
  function ReadUnit(s: Text): (r: Reading<CodeUnit>)
    ensures r.Got? ==> |r.rest| < |s|
  {
    if s == [] || s[0] < 32 || s[0] == '"' as int then Refused
    else if s[0] != '\\' as int then Got(s[0], s[1..])
    else if |s| > 1 && Escaped(s[1]) >= 0 then Got(Escaped(s[1]), s[2..])
    else if |s| > 5 && s[1] == 'u' as int && forall i :: 2 <= i < 6 ==> HexValue(s[i]) >= 0 then
      Got(HexValue(s[2]) * 4096 + HexValue(s[3]) * 256 + HexValue(s[4]) * 16 + HexValue(s[5]), s[6..])
    else Refused
  }

  /** The rest of a string, up to its closing quote. */
  function ReadString(s: Text): (r: Reading<Text>)
    ensures r.Got? ==> |r.rest| < |s|
  {
    if s != [] && s[0] == '"' as int then Got([], s[1..])
    else
      match ReadUnit(s)
      case Refused => Refused
      case Got(u, more) =>
        match ReadString(more)
        case Refused => Refused
        case Got(text, rest) => Got([u] + text, rest)
  }

  predicate Begins(s: Text, word: string) {
    |s| >= |word| && forall i :: 0 <= i < |word| ==> s[i] == word[i] as int
  }

  function ReadWord(s: Text, word: string, v: Json): Reading<Json> {
    if Begins(s, word) then Got(v, s[|word|..]) else Refused
  }

  /** A number token takes every unit that can be part of one. */
  function TokenLength(s: Text): (n: nat)
    ensures n <= |s|
    ensures forall i :: 0 <= i < n ==> NumberUnit(s[i])
    ensures n < |s| ==> !NumberUnit(s[n])
  {
    if s != [] && NumberUnit(s[0]) then 1 + TokenLength(s[1..]) else 0
  }

  function ReadValue(s: Text): (r: Reading<Json>)
    ensures r.Got? ==> |r.rest| < |s|
    decreases |s|, 0
  {
    if s == [] then Refused
    else if s[0] == 'n' as int then ReadWord(s, "null", Null)
    else if s[0] == 't' as int then ReadWord(s, "true", Bool(true))
    else if s[0] == 'f' as int then ReadWord(s, "false", Bool(false))
    else if NumberUnit(s[0]) then Got(Number(s[..TokenLength(s)]), s[TokenLength(s)..])
    else if s[0] == '"' as int then
      match ReadString(s[1..])
      case Refused => Refused
      case Got(text, rest) => Got(String(text), rest)
    else if Begins(s, "[]") then Got(Array([]), s[2..])
    else if s[0] == '[' as int then
      match ReadItems(s[1..])
      case Refused => Refused
      case Got(items, rest) => Got(Array(items), rest)
    else if Begins(s, "{}") then Got(Object([]), s[2..])
    else if s[0] == '{' as int then
      match ReadMembers(s[1..])
      case Refused => Refused
      case Got(members, rest) => Got(Object(members), rest)
    else Refused
  }

  /** One or more values separated by commas, and the closing bracket. */
  function ReadItems(s: Text): (r: Reading<seq<Json>>)
    ensures r.Got? ==> |r.rest| < |s|
    decreases |s|, 1
  {
    match ReadValue(s)
    case Refused => Refused
    case Got(item, rest) =>
      if Begins(rest, "]") then Got([item], rest[1..])
      else if Begins(rest, ",") then
        match ReadItems(rest[1..])
        case Refused => Refused
        case Got(items, rest') => Got([item] + items, rest')
      else Refused
  }

  /** One or more members separated by commas, and the closing brace. */
  function ReadMembers(s: Text): (r: Reading<seq<Member>>)
    ensures r.Got? ==> |r.rest| < |s|
    decreases |s|, 1
  {
    if !Begins(s, "\"") then Refused
    else
      match ReadString(s[1..])
      case Refused => Refused
      case Got(key, after) =>
        if !Begins(after, ":") then Refused
        else
          match ReadValue(after[1..])
          case Refused => Refused
          case Got(value, rest) =>
            if Begins(rest, "}") then Got([Member(key, value)], rest[1..])
            else if Begins(rest, ",") then
              match ReadMembers(rest[1..])
              case Refused => Refused
              case Got(members, rest') => Got([Member(key, value)] + members, rest')
            else Refused
  }

  // ----- Quoted strings read back -----

  lemma Assoc(a: Text, b: Text, c: Text)
    ensures (a + b) + c == a + (b + c)
  {
  }

  lemma FourDigits(u: int)
    requires 0 <= u < 0x10000
    ensures u == u / 4096 * 4096 + u / 256 % 16 * 256 + u / 16 % 16 * 16 + u % 16
  {
    var a, b, c := u / 16, u / 256, u / 4096;
    assert b == a / 16 && c == b / 16;
    assert u == a * 16 + u % 16 && a == b * 16 + a % 16 && b == c * 16 + b % 16;
  }

  lemma Pieces(p: Text, x: Text)
    ensures (p + x)[|p|..] == x && forall i :: 0 <= i < |p| ==> (p + x)[i] == p[i]
  {
  }

  lemma UnicodeReadsBack(u: CodeUnit, rest: Text)
    ensures ReadUnit(UnicodeEscape(u) + rest) == Got(u, rest)
  {
    FourDigits(u);
    Pieces(UnicodeEscape(u), rest);
    assert Escaped('u' as int) == -1;
  }

  lemma EscapeReadsBack(u: CodeUnit, rest: Text)
    ensures ReadUnit(EscapeUnit(u) + rest) == Got(u, rest)
    ensures EscapeUnit(u) != [] && EscapeUnit(u)[0] != QUOTE
  {
    if EscapeUnit(u) == UnicodeEscape(u) {
      UnicodeReadsBack(u, rest);
    } else {
      Pieces(EscapeUnit(u), rest);
    }
  }

  lemma RawReadsBack(u: CodeUnit, rest: Text)
    requires High(u) || Low(u)
    ensures ReadUnit([u] + rest) == Got(u, rest)
  {
  }

  lemma ReadStringStep(s: Text)
    requires s != [] && s[0] != QUOTE && ReadUnit(s).Got?
    ensures var one := ReadUnit(s); var more := ReadString(one.rest);
      ReadString(s) == if more.Got? then Got([one.value] + more.value, more.rest) else Refused
  {
  }

  lemma PairReadsBack(high: CodeUnit, low: CodeUnit, more: Text, text: Text, rest: Text)
    requires High(high) && Low(low) && ReadString(more) == Got(text, rest)
    ensures ReadString([high, low] + more) == Got([high, low] + text, rest)
  {
    assert [high, low] + more == [high] + ([low] + more) && [high, low] + text == [high] + ([low] + text);
    RawReadsBack(low, more);
    RawReadsBack(high, [low] + more);
    ReadStringStep([low] + more);
    ReadStringStep([high] + ([low] + more));
  }

  lemma {:induction false} QuoteBodyReadsBack(s: Text, rest: Text)
    ensures ReadString(QuoteBody(s) + ([QUOTE] + rest)) == Got(s, rest)
  {
    var tail := [QUOTE] + rest;
    if s == [] {
      assert QuoteBody(s) + tail == tail && tail[1..] == rest;
    } else if |s| >= 2 && High(s[0]) && Low(s[1]) {
      QuoteBodyReadsBack(s[2..], rest);
      Assoc([s[0], s[1]], QuoteBody(s[2..]), tail);
      PairReadsBack(s[0], s[1], QuoteBody(s[2..]) + tail, s[2..], rest);
      assert s == [s[0], s[1]] + s[2..];
    } else {
      var more := QuoteBody(s[1..]) + tail;
      QuoteBodyReadsBack(s[1..], rest);
      Assoc(EscapeUnit(s[0]), QuoteBody(s[1..]), tail);
      EscapeReadsBack(s[0], more);
      ReadStringStep(EscapeUnit(s[0]) + more);
      assert s == [s[0]] + s[1..];
    }
  }

  lemma QuoteReadsBack(s: Text, rest: Text)
    ensures var text := Quote(s) + rest; Begins(text, "\"") && ReadString(text[1..]) == Got(s, rest)
  {
    QuoteBodyReadsBack(s, rest);
    Assoc([QUOTE] + QuoteBody(s), [QUOTE], rest);
    Assoc([QUOTE], QuoteBody(s), [QUOTE] + rest);
    assert (Quote(s) + rest)[1..] == QuoteBody(s) + ([QUOTE] + rest);
  }

  lemma QuoteIsPrefixCode(s: Text, x: Text, t: Text, y: Text)
    requires Quote(s) + x == Quote(t) + y
    ensures s == t && x == y
  {
    QuoteReadsBack(s, x);
    QuoteReadsBack(t, y);
  }

  predicate LowerCase(u: CodeUnit) {
    !('A' as int <= u <= 'F' as int)
  }

  /** The printer uses the shortest spelling of a unit, with lower-case digits. Halves of
    * surrogate pairs have no raw spelling of their own. */
  lemma EscapeIsShortest(u: CodeUnit, word: Text)
    requires ReadUnit(word) == Got(u, [])
    requires High(u) || Low(u) ==> |word| > 1
    ensures |EscapeUnit(u)| <= |word|
    ensures |EscapeUnit(u)| == |word| && (|word| == 6 ==> forall i :: 2 <= i < 6 ==> LowerCase(word[i])) ==> word == EscapeUnit(u)
  {
    if |word| == 6 {
      HexDigits(u, HexValue(word[2]), HexValue(word[3]), HexValue(word[4]), HexValue(word[5]));
    }
  }

  lemma HexDigits(u: int, a: int, b: int, c: int, d: int)
    requires 0 <= a < 16 && 0 <= b < 16 && 0 <= c < 16 && 0 <= d < 16
    requires u == a * 4096 + b * 256 + c * 16 + d
    ensures u / 4096 == a && u / 256 % 16 == b && u / 16 % 16 == c && u % 16 == d
  {
    assert u / 16 == a * 256 + b * 16 + c && u / 256 == a * 16 + b;
  }

  /** Every half of a surrogate pair has its other half beside it. */
  predicate Paired(s: Text) {
    || s == []
    || (High(s[0]) && |s| > 1 && Low(s[1]) && Paired(s[2..]))
    || (!High(s[0]) && !Low(s[0]) && Paired(s[1..]))
  }

  predicate Plain(u: CodeUnit) {
    u >= 32 && u != QUOTE && u != BACKSLASH
  }

  /** Text without control characters, quotes and backslashes is copied, pairs included. */
  lemma {:induction false} PlainTextIsCopied(s: Text)
    requires Paired(s) && forall i :: 0 <= i < |s| ==> Plain(s[i])
    ensures QuoteBody(s) == s
  {
    if s != [] && High(s[0]) {
      assert forall i :: 0 <= i < |s| - 2 ==> s[2..][i] == s[2 + i];
      PlainTextIsCopied(s[2..]);
      assert QuoteBody(s) == [s[0], s[1]] + s[2..];
    } else if s != [] {
      assert forall i :: 0 <= i < |s| - 1 ==> s[1..][i] == s[1 + i];
      PlainTextIsCopied(s[1..]);
      assert EscapeUnit(s[0]) == [s[0]];
      assert QuoteBody(s) == [s[0]] + s[1..];
    }
  }

  lemma {:induction false} PairedJoins(a: Text, b: Text)
    requires Paired(a) && Paired(b)
    ensures Paired(a + b)
  {
    if a == [] {
      assert a + b == b;
    } else {
      var n := if High(a[0]) then 2 else 1;
      assert (a + b)[n..] == a[n..] + b;
      PairedJoins(a[n..], b);
    }
  }

  lemma {:induction false} NoHalvesArePaired(s: Text)
    requires forall i :: 0 <= i < |s| ==> !High(s[i]) && !Low(s[i])
    ensures Paired(s)
  {
    if s != [] { NoHalvesArePaired(s[1..]); }
  }

  lemma MarksArePaired()
    ensures forall u: CodeUnit :: u < 0x80 ==> Paired([u])
  {
  }

  lemma {:induction false} QuoteBodyIsPaired(s: Text)
    ensures Paired(QuoteBody(s))
  {
    if |s| >= 2 && High(s[0]) && Low(s[1]) {
      QuoteBodyIsPaired(s[2..]);
      assert QuoteBody(s)[2..] == QuoteBody(s[2..]);
    } else if s != [] {
      QuoteBodyIsPaired(s[1..]);
      NoHalvesArePaired(EscapeUnit(s[0]));
      PairedJoins(EscapeUnit(s[0]), QuoteBody(s[1..]));
    }
  }

  lemma QuoteIsPaired(s: Text)
    ensures Paired(Quote(s))
  {
    QuoteBodyIsPaired(s);
    MarksArePaired();
    PairedJoins([QUOTE], QuoteBody(s));
    PairedJoins([QUOTE] + QuoteBody(s), [QUOTE]);
  }

  // ----- Printed values read back, up to key order -----

  /** What may follow a printed value: nothing, a comma or a closing bracket. */
  predicate Delimited(rest: Text) {
    rest == [] || rest[0] == COMMA || rest[0] == CLOSE_ARRAY || rest[0] == CLOSE_OBJECT
  }

  /** The keys of every object in v ascend. */
  predicate KeysAscend(v: Json) {
    match v
    case Array(items) => forall i :: 0 <= i < |items| ==> KeysAscend(items[i])
    case Object(members) => Sorted(Keys(members)) && forall i :: 0 <= i < |members| ==> KeysAscend(members[i].value)
    case _ => true
  }

  ghost predicate SortedCopy(v: Json, w: Json) {
    SameUpToKeyOrder(v, w) && KeysAscend(w)
  }

  /** The printer with the text that follows as an argument: no concatenation to reassociate. */
  function Emit(v: Json, rest: Text): Text
    decreases v, 0
  {
    match v
    case Array(items) => [OPEN_ARRAY] + EmitItems(items, rest)
    case Object(members) => [OPEN_OBJECT] + EmitMembers(members, SortKeys(Keys(members)), rest)
    case _ => Print(v) + rest
  }

  function EmitItems(items: seq<Json>, rest: Text): Text
    decreases items, 0
  {
    if items == [] then [CLOSE_ARRAY] + rest
    else Emit(items[0], if |items| == 1 then [CLOSE_ARRAY] + rest else [COMMA] + EmitItems(items[1..], rest))
  }

  function EmitMembers(members: seq<Member>, keys: seq<Text>, rest: Text): Text
    requires forall k :: k in keys ==> k in Keys(members)
    decreases members, |keys|
  {
    if keys == [] then [CLOSE_OBJECT] + rest
    else
      Quote(keys[0]) + ([COLON] + Emit(Lookup(members, keys[0]),
        if |keys| == 1 then [CLOSE_OBJECT] + rest else [COMMA] + EmitMembers(members, keys[1..], rest)))
  }

  lemma {:induction false} EmitIsPrint(v: Json, rest: Text)
    ensures Emit(v, rest) == Print(v) + rest
    decreases v, 0
  {
    match v
    case Array(items) =>
      EmitItemsIsPrint(items, rest);
      Assoc([OPEN_ARRAY] + PrintItems(items), [CLOSE_ARRAY], rest);
      Assoc([OPEN_ARRAY], PrintItems(items), [CLOSE_ARRAY] + rest);
    case Object(members) =>
      var keys := SortKeys(Keys(members));
      EmitMembersIsPrint(members, keys, rest);
      Assoc([OPEN_OBJECT] + PrintMembers(members, keys), [CLOSE_OBJECT], rest);
      Assoc([OPEN_OBJECT], PrintMembers(members, keys), [CLOSE_OBJECT] + rest);
    case _ =>
  }

  lemma {:induction false} EmitItemsIsPrint(items: seq<Json>, rest: Text)
    ensures EmitItems(items, rest) == PrintItems(items) + ([CLOSE_ARRAY] + rest)
    decreases items, 0
  {
    var close := [CLOSE_ARRAY] + rest;
    if items == [] {
    } else if |items| == 1 {
      EmitIsPrint(items[0], close);
    } else {
      var first, more := Print(items[0]), PrintItems(items[1..]);
      EmitItemsIsPrint(items[1..], rest);
      EmitIsPrint(items[0], [COMMA] + (more + close));
      Assoc(first + [COMMA], more, close);
      Assoc(first, [COMMA], more + close);
    }
  }

  lemma {:induction false} EmitMembersIsPrint(members: seq<Member>, keys: seq<Text>, rest: Text)
    requires forall k :: k in keys ==> k in Keys(members)
    ensures EmitMembers(members, keys, rest) == PrintMembers(members, keys) + ([CLOSE_OBJECT] + rest)
    decreases members, |keys|
  {
    var close := [CLOSE_OBJECT] + rest;
    if keys != [] {
      var name, value := Quote(keys[0]), Lookup(members, keys[0]);
      var after := close;
      if |keys| > 1 {
        var more := PrintMembers(members, keys[1..]);
        EmitMembersIsPrint(members, keys[1..], rest);
        after := [COMMA] + (more + close);
        Assoc(PrintMember(members, keys[0]) + [COMMA], more, close);
        Assoc(PrintMember(members, keys[0]), [COMMA], more + close);
      }
      EmitIsPrint(value, after);
      Assoc(name + [COLON], Print(value), after);
      Assoc(name, [COLON], Print(value) + after);
    }
  }

  lemma {:induction false} LookupFindsMembers(ms: seq<Member>)
    requires Distinct(Keys(ms))
    ensures forall i :: 0 <= i < |ms| ==> ms[i].key in Keys(ms) && Lookup(ms, ms[i].key) == ms[i].value
  {
    forall i | 0 <= i < |ms| ensures ms[i].key in Keys(ms) && Lookup(ms, ms[i].key) == ms[i].value {
      assert Keys(ms)[i] == ms[i].key;
      var j :| 0 <= j < |ms| && ms[j] == Member(ms[i].key, Lookup(ms, ms[i].key));
      assert Keys(ms)[j] == Keys(ms)[i];
    }
  }

  lemma TokenReadsBack(token: Text, rest: Text)
    requires token != [] && (forall i :: 0 <= i < |token| ==> NumberUnit(token[i])) && Delimited(rest)
    ensures ReadValue(token + rest) == Got(Number(token), rest)
  {
    var s := token + rest;
    Pieces(token, rest);
    TokenEnds(token, rest);
    assert s[..|token|] == token;
  }

  lemma {:induction false} TokenEnds(token: Text, rest: Text)
    requires (forall i :: 0 <= i < |token| ==> NumberUnit(token[i])) && Delimited(rest)
    ensures TokenLength(token + rest) == |token|
  {
    if token == [] {
      assert token + rest == rest;
    } else {
      assert (token + rest)[1..] == token[1..] + rest;
      TokenEnds(token[1..], rest);
    }
  }

  lemma WordReadsBack(word: string, v: Json, rest: Text)
    requires (word, v) == ("null", Null) || (word, v) == ("true", Bool(true)) || (word, v) == ("false", Bool(false))
    requires Begins(Print(v), word) && |Print(v)| == |word|
    ensures ReadValue(Print(v) + rest) == Got(v, rest)
  {
    var s := Print(v) + rest;
    assert forall i :: 0 <= i < |word| ==> s[i] == Print(v)[i];
    assert s[|word|..] == rest;
  }

  /** What was printed is read back, with the keys of every object in ascending order. */
  lemma {:induction false} PrintedReadsBack(v: Json, rest: Text)
    requires WellFormed(v) && Delimited(rest)
    ensures var r := ReadValue(Emit(v, rest)); r.Got? && r.rest == rest && SortedCopy(v, r.value)
    decreases v, 0
  {
    match v
    case Null => WordReadsBack("null", v, rest);
    case Bool(flag) => WordReadsBack(if flag then "true" else "false", v, rest);
    case Number(token) => TokenReadsBack(token, rest);
    case String(text) => QuoteReadsBack(text, rest);
    case Array(items) =>
      if items != [] { ItemsReadBack(items, rest); }
      ArrayReads(items, rest);
    case Object(members) =>
      var keys := SortKeys(Keys(members));
      if keys != [] { MembersReadBack(members, keys, rest); }
      ObjectReads(members, keys, rest);
  }

  ghost predicate ItemsRead(items: seq<Json>, r: Reading<seq<Json>>, rest: Text) {
    r.Got? && r.rest == rest && |r.value| == |items| && forall i :: 0 <= i < |items| ==> SortedCopy(items[i], r.value[i])
  }

  ghost predicate MembersRead(members: seq<Member>, keys: seq<Text>, r: Reading<seq<Member>>, rest: Text)
    requires forall k :: k in keys ==> k in Keys(members)
  {
    && r.Got? && r.rest == rest && Keys(r.value) == keys
    && forall i :: 0 <= i < |keys| ==> SortedCopy(Lookup(members, keys[i]), r.value[i].value)
  }

  lemma EmitLead(v: Json, rest: Text)
    requires WellFormed(v)
    ensures Emit(v, rest) != [] && Emit(v, rest)[0] !in {COMMA, COLON, CLOSE_ARRAY, CLOSE_OBJECT}
  {
  }

  lemma ArrayReads(items: seq<Json>, rest: Text)
    requires WellFormed(Array(items))
    requires items != [] ==> ItemsRead(items, ReadItems(EmitItems(items, rest)), rest)
    ensures var r := ReadValue([OPEN_ARRAY] + EmitItems(items, rest));
      r.Got? && r.rest == rest && SortedCopy(Array(items), r.value)
  {
    var s := [OPEN_ARRAY] + EmitItems(items, rest);
    Pieces([OPEN_ARRAY], EmitItems(items, rest));
    if items == [] {
      assert s[2..] == rest;
    } else {
      EmitLead(items[0], if |items| == 1 then [CLOSE_ARRAY] + rest else [COMMA] + EmitItems(items[1..], rest));
      assert s[1] == EmitItems(items, rest)[0];
    }
  }

  lemma ObjectReads(members: seq<Member>, keys: seq<Text>, rest: Text)
    requires WellFormed(Object(members)) && keys == SortKeys(Keys(members))
    requires keys != [] ==> MembersRead(members, keys, ReadMembers(EmitMembers(members, keys, rest)), rest)
    ensures var r := ReadValue([OPEN_OBJECT] + EmitMembers(members, keys, rest));
      r.Got? && r.rest == rest && SortedCopy(Object(members), r.value)
  {
    var more := EmitMembers(members, keys, rest);
    if keys == [] {
      if members != [] { KeysAreKept(Keys(members)); }
      assert ([OPEN_OBJECT] + more)[2..] == rest;
    } else {
      BracedReads(more);
      SortedMembersAreSame(members, ReadMembers(more).value);
    }
  }

  lemma KeysAreKept(keys: seq<Text>)
    requires keys != []
    ensures SortKeys(keys) != []
  {
    assert keys[0] in SortKeys(keys);
  }

  lemma BracedReads(more: Text)
    requires Begins(more, "\"")
    ensures var r := ReadMembers(more);
      ReadValue([OPEN_OBJECT] + more) == if r.Got? then Got(Object(r.value), r.rest) else Refused
  {
    var s := [OPEN_OBJECT] + more;
    assert s[1..] == more && s[1] == QUOTE;
  }

  lemma {:induction false} ItemsReadBack(items: seq<Json>, rest: Text)
    requires items != [] && forall i :: 0 <= i < |items| ==> WellFormed(items[i])
    ensures ItemsRead(items, ReadItems(EmitItems(items, rest)), rest)
    decreases items, 0
  {
    var after := if |items| == 1 then [CLOSE_ARRAY] + rest else [COMMA] + EmitItems(items[1..], rest);
    PrintedReadsBack(items[0], after);
    if |items| == 1 {
      assert after[1..] == rest;
    } else {
      assert after[1..] == EmitItems(items[1..], rest);
      ItemsReadBack(items[1..], rest);
    }
  }

  lemma LastMemberReads(s: Text, key: Text, after: Text, value: Json, rest: Text)
    requires Begins(s, "\"") && ReadString(s[1..]) == Got(key, after)
    requires Begins(after, ":") && ReadValue(after[1..]) == Got(value, rest) && Begins(rest, "}")
    ensures ReadMembers(s) == Got([Member(key, value)], rest[1..])
  {
  }

  lemma MemberReads(s: Text, key: Text, after: Text, value: Json, rest: Text, more: seq<Member>, end: Text)
    requires Begins(s, "\"") && ReadString(s[1..]) == Got(key, after)
    requires Begins(after, ":") && ReadValue(after[1..]) == Got(value, rest)
    requires Begins(rest, ",") && ReadMembers(rest[1..]) == Got(more, end)
    ensures ReadMembers(s) == Got([Member(key, value)] + more, end)
  {
  }

  lemma {:induction false} MembersReadBack(members: seq<Member>, keys: seq<Text>, rest: Text)
    requires forall i :: 0 <= i < |members| ==> WellFormed(members[i].value)
    requires keys != [] && forall k :: k in keys ==> k in Keys(members)
    ensures MembersRead(members, keys, ReadMembers(EmitMembers(members, keys, rest)), rest)
    decreases members, |keys|
  {
    var value := Lookup(members, keys[0]);
    var after := if |keys| == 1 then [CLOSE_OBJECT] + rest else [COMMA] + EmitMembers(members, keys[1..], rest);
    PrintedReadsBack(value, after);
    var first := Member(keys[0], ReadValue(Emit(value, after)).value);
    var s, colon := EmitMembers(members, keys, rest), [COLON] + Emit(value, after);
    QuoteReadsBack(keys[0], colon);
    assert s == Quote(keys[0]) + colon && colon[1..] == Emit(value, after);
    if |keys| == 1 {
      assert after[1..] == rest;
      LastMemberReads(s, keys[0], colon, first.value, after);
      OneMoreRead(members, keys, first, [], rest);
    } else {
      assert after[1..] == EmitMembers(members, keys[1..], rest);
      MembersReadBack(members, keys[1..], rest);
      var more := ReadMembers(after[1..]).value;
      MemberReads(s, keys[0], colon, first.value, after, more, rest);
      OneMoreRead(members, keys, first, more, rest);
    }
  }

  lemma OneMoreRead(members: seq<Member>, keys: seq<Text>, first: Member, more: seq<Member>, rest: Text)
    requires keys != [] && forall k :: k in keys ==> k in Keys(members)
    requires first.key == keys[0] && SortedCopy(Lookup(members, keys[0]), first.value)
    requires MembersRead(members, keys[1..], Got(more, rest), rest)
    ensures MembersRead(members, keys, Got([first] + more, rest), rest)
  {
    var read := [first] + more;
    forall i | 0 <= i < |keys|
      ensures read[i].key == keys[i] && SortedCopy(Lookup(members, keys[i]), read[i].value)
    {
      if i > 0 {
        assert keys[i] == keys[1..][i - 1] && read[i] == more[i - 1] && more[i - 1].key == Keys(more)[i - 1];
      }
    }
    assert Keys(read) == keys;
  }

  lemma SortedMembersAreSame(ms: seq<Member>, ws: seq<Member>)
    requires WellFormed(Object(ms)) && Keys(ws) == SortKeys(Keys(ms))
    requires forall i :: 0 <= i < |ws| ==> SortedCopy(Lookup(ms, ws[i].key), ws[i].value)
    ensures SortedCopy(Object(ms), Object(ws))
  {
    SortKeysSorts(Keys(ms));
    LookupFindsMembers(ms);
  }

  lemma SameBoth(a: Json, b: Json, w: Json)
    requires SameUpToKeyOrder(a, w) && SameUpToKeyOrder(b, w)
    ensures SameUpToKeyOrder(a, b)
    decreases a
  {
    match a
    case Array(items) =>
      forall i | 0 <= i < |items| ensures SameUpToKeyOrder(items[i], b.items[i]) {
        SameBoth(items[i], b.items[i], w.items[i]);
      }
    case Object(members) =>
      forall i, j | 0 <= i < |members| && 0 <= j < |b.members| && members[i].key == b.members[j].key
        ensures SameUpToKeyOrder(members[i].value, b.members[j].value)
      {
        assert Keys(members)[i] in Keys(w.members);
        var k :| 0 <= k < |w.members| && Keys(w.members)[k] == members[i].key;
        SameBoth(members[i].value, b.members[j].value, w.members[k].value);
      }
    case _ =>
  }

  lemma EmitIsPrefixCode(a: Json, x: Text, b: Json, y: Text)
    requires WellFormed(a) && WellFormed(b) && Delimited(x) && Delimited(y)
    requires Emit(a, x) == Emit(b, y)
    ensures SameUpToKeyOrder(a, b) && x == y
  {
    PrintedReadsBack(a, x);
    PrintedReadsBack(b, y);
    SameBoth(a, b, ReadValue(Emit(a, x)).value);
  }

  /** Printing and reading gives the value back with its keys in order, and nothing is left over. */
  lemma PrintRoundTrip(v: Json)
    requires WellFormed(v)
    ensures var r := ReadValue(Print(v));
      r.Got? && r.rest == [] && SameUpToKeyOrder(v, r.value) && KeysAscend(r.value)
  {
    EmitIsPrint(v, []);
    assert Print(v) + [] == Print(v);
    PrintedReadsBack(v, []);
  }

  // ----- The text has an encoding: no half of a surrogate pair stands alone -----

  lemma {:induction false} PrintIsPaired(v: Json)
    requires WellFormed(v)
    ensures Paired(Print(v))
    decreases v, 0
  {
    match v
    case Null => NoHalvesArePaired(NULL_TEXT);
    case Bool(flag) => NoHalvesArePaired(if flag then TRUE_TEXT else FALSE_TEXT);
    case Number(token) => NoHalvesArePaired(token);
    case String(text) => QuoteIsPaired(text);
    case Array(items) =>
      MarksArePaired();
      ItemsArePaired(items);
      PairedJoins([OPEN_ARRAY], PrintItems(items));
      PairedJoins([OPEN_ARRAY] + PrintItems(items), [CLOSE_ARRAY]);
    case Object(members) =>
      var keys := SortKeys(Keys(members));
      MarksArePaired();
      MembersArePaired(members, keys);
      PairedJoins([OPEN_OBJECT], PrintMembers(members, keys));
      PairedJoins([OPEN_OBJECT] + PrintMembers(members, keys), [CLOSE_OBJECT]);
  }

  lemma {:induction false} ItemsArePaired(items: seq<Json>)
    requires forall i :: 0 <= i < |items| ==> WellFormed(items[i])
    ensures Paired(PrintItems(items))
    decreases items, 0
  {
    if items != [] {
      PrintIsPaired(items[0]);
      if |items| > 1 {
        ItemsArePaired(items[1..]);
        MarksArePaired();
        PairedJoins(Print(items[0]), [COMMA]);
        PairedJoins(Print(items[0]) + [COMMA], PrintItems(items[1..]));
      }
    }
  }

  lemma {:induction false} MembersArePaired(members: seq<Member>, keys: seq<Text>)
    requires forall i :: 0 <= i < |members| ==> WellFormed(members[i].value)
    requires forall k :: k in keys ==> k in Keys(members)
    ensures Paired(PrintMembers(members, keys))
    decreases members, |keys|
  {
    if keys != [] {
      var name, value := Quote(keys[0]), Lookup(members, keys[0]);
      QuoteIsPaired(keys[0]);
      PrintIsPaired(value);
      MarksArePaired();
      PairedJoins(name, [COLON]);
      PairedJoins(name + [COLON], Print(value));
      if |keys| > 1 {
        MembersArePaired(members, keys[1..]);
        PairedJoins(PrintMember(members, keys[0]), [COMMA]);
        PairedJoins(PrintMember(members, keys[0]) + [COMMA], PrintMembers(members, keys[1..]));
      }
    }
  }

  // ----- Equal values print alike -----

  lemma {:induction false} SameValuesPrintAlike(a: Json, b: Json)
    requires WellFormed(a) && WellFormed(b) && SameUpToKeyOrder(a, b)
    ensures Print(a) == Print(b)
    decreases a, 0
  {
    match a
    case Array(items) => SameItemsPrintAlike(items, b.items);
    case Object(members) =>
      SortKeysSorts(Keys(members));
      SortKeysSorts(Keys(b.members));
      SortedIsUnique(SortKeys(Keys(members)), SortKeys(Keys(b.members)));
      SameMembersPrintAlike(members, b.members, SortKeys(Keys(members)));
    case _ =>
  }

  lemma {:induction false} SameItemsPrintAlike(xs: seq<Json>, ys: seq<Json>)
    requires |xs| == |ys|
    requires forall i :: 0 <= i < |xs| ==> WellFormed(xs[i]) && WellFormed(ys[i]) && SameUpToKeyOrder(xs[i], ys[i])
    ensures PrintItems(xs) == PrintItems(ys)
    decreases xs, 0
  {
    if xs != [] {
      SameValuesPrintAlike(xs[0], ys[0]);
      SameItemsPrintAlike(xs[1..], ys[1..]);
    }
  }

  lemma {:induction false} SameMembersPrintAlike(ms: seq<Member>, ns: seq<Member>, keys: seq<Text>)
    requires forall i :: 0 <= i < |ms| ==> WellFormed(ms[i].value)
    requires forall i :: 0 <= i < |ns| ==> WellFormed(ns[i].value)
    requires forall k :: k in keys ==> k in Keys(ms) && k in Keys(ns)
    requires forall i, j :: 0 <= i < |ms| && 0 <= j < |ns| && ms[i].key == ns[j].key ==> SameUpToKeyOrder(ms[i].value, ns[j].value)
    ensures PrintMembers(ms, keys) == PrintMembers(ns, keys)
    decreases ms, |keys|
  {
    if keys != [] {
      var a, b := Lookup(ms, keys[0]), Lookup(ns, keys[0]);
      var i :| 0 <= i < |ms| && ms[i] == Member(keys[0], a);
      var j :| 0 <= j < |ns| && ns[j] == Member(keys[0], b);
      SameValuesPrintAlike(a, b);
      SameMembersPrintAlike(ms, ns, keys[1..]);
    }
  }

  /** Two values print to the same text exactly when they are equal up to object key order.
    * A digest that is injective on texts therefore sees every change of content and no
    * reordering of keys. */
  lemma CanonicalTextIsUnambiguous(a: Json, b: Json)
    requires WellFormed(a) && WellFormed(b)
    ensures Print(a) == Print(b) <==> SameUpToKeyOrder(a, b)
  {
    if Print(a) == Print(b) {
      EmitIsPrint(a, []);
      EmitIsPrint(b, []);
      EmitIsPrefixCode(a, [], b, []);
    }
    if SameUpToKeyOrder(a, b) {
      SameValuesPrintAlike(a, b);
    }
  }
}
