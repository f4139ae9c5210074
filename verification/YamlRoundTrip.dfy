/** Documents as they are written, their canonical two-space text, and the proof that the parser reads them back. */
module YamlRoundTrip {
  import opened Text
  import opened Wrappers
  import opened YamlParser
  import opened YamlGrammar

  // ------------------------------------------------------------ documents as written

  /** `Decimal(n, places)` is written with that many digits after the dot. */
  datatype Scalar =
    | NullWord
    | Truth(b: bool)
    | Integer(n: int)
    | Decimal(n: int, places: nat)
    | DoubleQuoted(s: string)
    | SingleQuoted(s: string)
    | Bare(s: string)

  datatype Node = Leaf(scalar: Scalar) | Listing(items: seq<Node>) | Mapping(fields: seq<Property>)

  datatype Property = Property(key: string, node: Node)

  ghost predicate IsNumeral(s: string, sign: string, whole: string, fraction: string) {
    && (sign == "" || sign == "-") && AllDigits(whole)
    && (s == sign + whole || (AllDigits(fraction) && s == sign + whole + "." + fraction))
  }

  /** Digits, with an optional sign before them and an optional dot between them. */
  ghost predicate NumberLike(s: string) {
    exists sign, whole, fraction :: IsNumeral(s, sign, whole, fraction)
  }

  /** Neither quoted, nor one of the three words, nor a number. */
  ghost predicate BareText(s: string) {
    && s != "" && Trimmed(s)
    && !(s[0] == s[|s| - 1] == '"') && !(s[0] == s[|s| - 1] == '\'')
    && s != "true" && s != "false" && s != "null" && !NumberLike(s)
  }

  ghost predicate PrintableScalar(sc: Scalar) {
    match sc
    case Decimal(_, places) => places > 0
    case DoubleQuoted(s) => '\n' !in s
    case SingleQuoted(s) => '\n' !in s
    case Bare(s) => BareText(s) && '\n' !in s
    case _ => true
  }

  predicate PrintableKey(key: string) {
    Trimmed(key) && ':' !in key && '\n' !in key && !("- " <= key) && !("#" <= key)
  }

  /** A list holds mappings, or scalars whose text has no colon; lists of lists have no notation. */
  ghost predicate PrintableItem(node: Node)
    decreases node, 1
  {
    match node
    case Leaf(sc) => PrintableScalar(sc) && ':' !in ScalarText(sc)
    case Listing(_) => false
    case Mapping(_) => Printable(node)
  }

  ghost predicate DistinctKeys(fields: seq<Property>) {
    forall i, j | 0 <= i < j < |fields| :: fields[i].key != fields[j].key
  }

  ghost predicate Printable(node: Node)
    decreases node, 0
  {
    match node
    case Leaf(sc) => PrintableScalar(sc)
    case Listing(items) => items != [] && forall item | item in items :: PrintableItem(item)
    case Mapping(fields) =>
      fields != [] && DistinctKeys(fields) && forall f | f in fields :: PrintableKey(f.key) && Printable(f.node)
  }

  ghost predicate PrintableFields(fields: seq<Property>) {
    forall f | f in fields :: PrintableKey(f.key) && Printable(f.node)
  }

  // ------------------------------------------------------------------- what they mean

  function ScalarMeaning(sc: Scalar): Value {
    match sc
    case NullWord => Null
    case Truth(b) => Bool(b)
    case Integer(n) => Number(n as real)
    case Decimal(n, places) =>
      Pow10Positive(places);
      Number(n as real / Pow10(places))
    case DoubleQuoted(s) => Str(s)
    case SingleQuoted(s) => Str(s)
    case Bare(s) => Str(s)
  }

  function Meaning(node: Node): Value
    decreases node
  {
    match node
    case Leaf(sc) => ScalarMeaning(sc)
    case Listing(items) => List(Meanings(items))
    case Mapping(fields) => Record(FieldMeanings(fields))
  }

  function Meanings(nodes: seq<Node>): seq<Value>
    decreases nodes
  {
    if nodes == [] then [] else [Meaning(nodes[0])] + Meanings(nodes[1..])
  }

  function FieldMeanings(fields: seq<Property>): seq<Field>
    decreases fields
  {
    if fields == [] then [] else [Field(fields[0].key, Meaning(fields[0].node))] + FieldMeanings(fields[1..])
  }

  // ---------------------------------------------------------------------- the printer

  function IntegerText(n: int): string {
    if n < 0 then "-" + DigitsText(-n) else DigitsText(n)
  }

  /** A number without its last `places` digits. */
  function Whole(n: nat, places: nat): nat {
    if places == 0 then n else Whole(n / 10, places - 1)
  }

  /** The last `places` digits of a number, with leading zeros. */
  function Padded(n: nat, places: nat): string {
    if places == 0 then "" else Padded(n / 10, places - 1) + [('0' as int + n % 10) as char]
  }

  function DecimalText(n: int, places: nat): string {
    var magnitude := if n < 0 then -n else n;
    (if n < 0 then "-" else "") + DigitsText(Whole(magnitude, places)) + "." + Padded(magnitude, places)
  }

  function ScalarText(sc: Scalar): string {
    match sc
    case NullWord => "null"
    case Truth(b) => if b then "true" else "false"
    case Integer(n) => IntegerText(n)
    case Decimal(n, places) => DecimalText(n, places)
    case DoubleQuoted(s) => "\"" + s + "\""
    case SingleQuoted(s) => "'" + s + "'"
    case Bare(s) => s
  }

  /** `key: text`, or `key:` when the value follows as a block. */
  function EntryText(key: string, text: string): string {
    key + ":" + if text == "" then "" else " " + text
  }

  function EntryOfProperty(f: Property): EntryTree
    decreases f, 0
  {
    match f.node
    case Leaf(sc) => EntryTree(EntryText(f.key, ScalarText(sc)), None)
    case _ => EntryTree(EntryText(f.key, ""), Some(TreeOf(f.node)))
  }

  function EntriesOf(fields: seq<Property>): seq<EntryTree>
    decreases fields, 0
  {
    if fields == [] then [] else [EntryOfProperty(fields[0])] + EntriesOf(fields[1..])
  }

  /** A mapping in a list begins on the line of its item. */
  function ItemOf(node: Node): ItemTree
    decreases node, 0
  {
    match node
    case Leaf(sc) => ItemTree("- " + ScalarText(sc), None, [])
    case Mapping(fields) =>
      if fields == [] then ItemTree("- ", None, []) else
      var first := EntryOfProperty(fields[0]);
      ItemTree("- " + first.content, first.below, EntriesOf(fields[1..]))
    case Listing(_) => ItemTree("- ", None, [])
  }

  function ItemsOf(items: seq<Node>): seq<ItemTree>
    decreases items, 0
  {
    if items == [] then [] else [ItemOf(items[0])] + ItemsOf(items[1..])
  }

  function TreeOf(node: Node): Block
    decreases node, 1
  {
    match node
    case Leaf(_) => Items([])
    case Listing(items) => Items(ItemsOf(items))
    case Mapping(fields) => Entries(EntriesOf(fields))
  }

  function LineText(line: Line): string {
    Spaces(line.indent) + line.content
  }

  function JoinLines(lines: seq<Line>): string {
    if lines == [] then ""
    else if |lines| == 1 then LineText(lines[0])
    else LineText(lines[0]) + "\n" + JoinLines(lines[1..])
  }

  function PrintBlock(node: Node): seq<Line> {
    BlockLines(TreeOf(node), 0)
  }

  function PrintDocument(node: Node): string {
    JoinLines(PrintBlock(node))
  }

  // -------------------------------------------------------------------------- scalars

  lemma {:induction false} PaddedDigits(n: nat, places: nat)
    ensures |Padded(n, places)| == places && forall i | 0 <= i < places :: IsDigit(Padded(n, places)[i])
  {
    if places > 0 {
      PaddedDigits(n / 10, places - 1);
    }
  }

  function TenTo(n: nat): nat {
    if n == 0 then 1 else 10 * TenTo(n - 1)
  }

  lemma {:induction false} PowersAgree(n: nat)
    ensures Pow10(n) == TenTo(n) as real
  {
    if n > 0 {
      PowersAgree(n - 1);
    }
  }

  lemma {:induction false} WholeAndPadded(n: nat, places: nat)
    requires forall i | 0 <= i < |Padded(n, places)| :: IsDigit(Padded(n, places)[i])
    ensures Whole(n, places) * TenTo(places) + DigitsValue(Padded(n, places)) == n
  {
    if places > 0 {
      PaddedDigits(n / 10, places - 1);
      WholeAndPadded(n / 10, places - 1);
      LastDigit(n, places, Padded(n / 10, places - 1));
      hide Padded, DigitsValue;
      OneMorePlace(Whole(n / 10, places - 1), TenTo(places - 1), DigitsValue(Padded(n / 10, places - 1)), n);
      hide Whole, TenTo;
    }
  }

  lemma LastDigit(n: nat, places: nat, rest: string)
    requires places > 0 && rest == Padded(n / 10, places - 1)
    requires forall i | 0 <= i < |rest| :: IsDigit(rest[i])
    requires forall i | 0 <= i < |Padded(n, places)| :: IsDigit(Padded(n, places)[i])
    ensures DigitsValue(Padded(n, places)) == 10 * DigitsValue(rest) + n % 10
    ensures Whole(n, places) == Whole(n / 10, places - 1) && TenTo(places) == 10 * TenTo(places - 1)
  {
    var s := Padded(n, places);
    assert s[..|s| - 1] == rest;
  }

  lemma OneMorePlace(w: nat, t: nat, d: nat, n: nat)
    requires w * t + d == n / 10
    ensures w * (10 * t) + (10 * d + n % 10) == n
  {
    assert w * (10 * t) == 10 * (w * t);
  }

  lemma Share(w: real, f: real, p: real, m: real)
    requires p > 0.0 && w * p + f == m
    ensures w + f / p == m / p && -(w + f / p) == -m / p
  {
    assert (w + f / p) * p == m;
    assert -(w + f / p) * p == -m;
  }

  lemma TrimOfTrimmed(s: string)
    requires Trimmed(s)
    ensures Trim(s) == s && TrimStart(s) == s && TrimEnd(s) == s
  {
  }

  /** A digit is no quotation mark, no dot, no minus sign and no white space. */
  lemma DigitFacts(s: string)
    requires AllDigits(s)
    ensures !("-" <= s) && '.' !in s && '\n' !in s && ':' !in s && !IsSpace(s[0]) && !IsSpace(s[|s| - 1])
    ensures s[0] != '"' && s[0] != '\''
  {
    assert IsDigit(s[0]) && IsDigit(s[|s| - 1]);
  }

  lemma IntegerIsRead(sign: string, whole: string)
    requires (sign == "" || sign == "-") && AllDigits(whole)
    ensures var text := sign + whole;
      && IsIntegerText(text) && Unmarked(text)
      && IntegerValue(text) == if sign == "-" then -(DigitsValue(whole) as int) else DigitsValue(whole)
  {
    DigitFacts(whole);
    var text := sign + whole;
    assert Unsigned(text) == whole && (sign == "-" ==> text[1..] == whole) && (sign == "" ==> text == whole);
    assert text[|text| - 1] == whole[|whole| - 1];
    assert !IsDigit('t') && !IsDigit('f') && !IsDigit('n');
  }

  /** Where the dot of a decimal stands, and what stands on both sides of it. */
  lemma DecimalSplits(sign: string, whole: string, fraction: string)
    requires (sign == "" || sign == "-") && AllDigits(whole)
    ensures var text := sign + whole + "." + fraction;
      var digits := Unsigned(text);
      && ("-" <= text <==> sign == "-") && digits == whole + "." + fraction && IndexOf(digits, '.') == |whole|
      && digits[..|whole|] == whole && digits[|whole| + 1..] == fraction && !AllDigits(digits)
  {
    DigitFacts(whole);
    var text, digits := sign + whole + "." + fraction, whole + "." + fraction;
    if sign == "-" {
      assert text[1..] == digits;
    } else {
      assert text == digits;
    }
    assert digits[..|whole|] == whole && digits[|whole| + 1..] == fraction;
    assert digits[|whole|] == '.' && !IsDigit('.');
    IndexOfFirst(digits, '.', |whole|);
    hide IndexOf;
  }

  lemma DecimalIsRead(sign: string, whole: string, fraction: string)
    requires (sign == "" || sign == "-") && AllDigits(whole) && AllDigits(fraction)
    ensures var text := sign + whole + "." + fraction;
      && IsDecimalText(text) && !IsIntegerText(text)
      && Pow10(|fraction|) > 0.0
      && var magnitude := DigitsValue(whole) as real + DigitsValue(fraction) as real / Pow10(|fraction|);
      DecimalValue(text) == if sign == "-" then -magnitude else magnitude
  {
    DecimalSplits(sign, whole, fraction);
    Pow10Positive(|fraction|);
    hide IndexOf, DigitsValue, Pow10, Unsigned, IsDigit;
  }

  lemma DecimalIsClean(sign: string, whole: string, fraction: string)
    requires (sign == "" || sign == "-") && AllDigits(whole) && AllDigits(fraction)
    ensures var text := sign + whole + "." + fraction;
      Unmarked(text)
  {
    DigitFacts(whole);
    DigitFacts(fraction);
    hide AllDigits;
    var text := sign + whole + "." + fraction;
    assert text[|text| - 1] == fraction[|fraction| - 1];
    assert '.' in text;
  }

  /** The tests of the parser for numbers accept exactly what looks like one. */
  lemma {:induction false} NumbersAreNumberLike(text: string)
    ensures IsIntegerText(text) || IsDecimalText(text) <==> NumberLike(text)
  {
    if IsIntegerText(text) || IsDecimalText(text) {
      NumbersAreNumerals(text);
    } else if sign, whole, fraction :| IsNumeral(text, sign, whole, fraction) {
      hide AllDigits, IsIntegerText, IsDecimalText, IntegerValue, DecimalValue, Pow10, DigitsValue;
      if text == sign + whole {
        IntegerIsRead(sign, whole);
      } else {
        DecimalIsRead(sign, whole, fraction);
      }
    }
  }

  lemma NumbersAreNumerals(text: string)
    requires IsIntegerText(text) || IsDecimalText(text)
    ensures NumberLike(text)
  {
    hide *;
    if IsIntegerText(text) {
      var sign, whole := IntegerShape(text);
      NumeralIsNumberLike(text, sign, whole, "");
    } else {
      var sign, whole, fraction := DecimalShape(text);
      NumeralIsNumberLike(text, sign, whole, fraction);
    }
  }

  lemma NumeralIsNumberLike(text: string, sign: string, whole: string, fraction: string)
    requires (sign == "" || sign == "-") && AllDigits(whole)
    requires text == sign + whole || (AllDigits(fraction) && text == sign + whole + "." + fraction)
    ensures NumberLike(text)
  {
    hide AllDigits;
    assert IsNumeral(text, sign, whole, fraction);
  }

  lemma IntegerShape(text: string) returns (sign: string, whole: string)
    requires IsIntegerText(text)
    ensures (sign == "" || sign == "-") && AllDigits(whole) && text == sign + whole
  {
    hide AllDigits;
    sign, whole := if "-" <= text then "-" else "", Unsigned(text);
  }

  lemma DecimalShape(text: string) returns (sign: string, whole: string, fraction: string)
    requires IsDecimalText(text)
    ensures (sign == "" || sign == "-") && AllDigits(whole) && AllDigits(fraction)
    ensures text == sign + whole + "." + fraction
  {
    hide AllDigits, IndexOf;
    var digits := Unsigned(text);
    var dot := IndexOf(digits, '.');
    IndexOfHit(digits, '.');
    sign, whole, fraction := if "-" <= text then "-" else "", digits[..dot], digits[dot + 1..];
    assert text == sign + digits;
    JoinAtDot(sign, digits, dot);
  }

  lemma JoinAtDot(sign: string, digits: string, dot: nat)
    requires dot < |digits| && digits[dot] == '.'
    ensures sign + digits == sign + digits[..dot] + "." + digits[dot + 1..]
  {
  }

  /** A trimmed text stands for itself exactly when it is bare, or empty. */
  lemma {:induction false} StandsForItself(text: string)
    requires Trimmed(text)
    ensures ParseScalar(text) == Str(text) <==> text == "" || BareText(text)
  {
    TrimOfTrimmed(text);
    NumbersAreNumberLike(text);
    hide NumberLike, IsIntegerText, IsDecimalText, IntegerValue, DecimalValue, Trim;
    assert |Unquote(text)| < |text| || text == "";
  }

  /** A text that is clean, not quoted and none of the words. */
  predicate Unmarked(text: string) {
    && text != "" && Trimmed(text) && text[0] != '"' && text[0] != '\''
    && text != "true" && text != "false" && text != "null" && '\n' !in text && ':' !in text
  }

  lemma UnmarkedParses(text: string)
    requires Unmarked(text)
    ensures IsIntegerText(text) ==> ParseScalar(text) == Number(IntegerValue(text) as real)
    ensures !IsIntegerText(text) && IsDecimalText(text) ==> ParseScalar(text) == Number(DecimalValue(text))
    ensures CleanScalar(text) && ':' !in text
  {
    TrimOfTrimmed(text);
    hide IsIntegerText, IsDecimalText, IntegerValue, DecimalValue, Trim;
  }

  lemma IntegerRoundTrip(n: int)
    ensures ParseScalar(IntegerText(n)) == Number(n as real) && CleanScalar(IntegerText(n)) && ':' !in IntegerText(n)
  {
    var sign, magnitude := if n < 0 then "-" else "", if n < 0 then -n else n;
    DigitsRoundTrip(magnitude);
    assert IntegerText(n) == sign + DigitsText(magnitude);
    var whole := DigitsText(magnitude);
    hide *;
    IntegerIsRead(sign, whole);
    UnmarkedParses(sign + whole);
  }

  lemma MagnitudeParts(m: nat, places: nat)
    requires places > 0
    ensures var whole, fraction := DigitsText(Whole(m, places)), Padded(m, places);
      && AllDigits(whole) && AllDigits(fraction) && |fraction| == places
      && DigitsValue(whole) as real * Pow10(places) + DigitsValue(fraction) as real == m as real
  {
    PaddedDigits(m, places);
    hide DigitsText, Padded, Whole, DigitsValue, Pow10, TenTo;
    WholeAndPadded(m, places);
    DigitsRoundTrip(Whole(m, places));
    PowersAgree(places);
    InReals(Whole(m, places), TenTo(places), DigitsValue(Padded(m, places)), m);
  }

  lemma InReals(w: nat, t: nat, d: nat, m: nat)
    requires w * t + d == m
    ensures w as real * t as real + d as real == m as real
  {
    assert w as real * t as real == (w * t) as real;
  }

  /** A sign, some digits, a dot and some digits are read as the number that they spell. */
  lemma SpelledDecimal(sign: string, whole: string, fraction: string, magnitude: real)
    requires (sign == "" || sign == "-") && AllDigits(whole) && AllDigits(fraction) && Pow10(|fraction|) > 0.0
    requires magnitude == DigitsValue(whole) as real + DigitsValue(fraction) as real / Pow10(|fraction|)
    ensures var text := sign + whole + "." + fraction;
      && ParseScalar(text) == Number(if sign == "-" then -magnitude else magnitude)
      && CleanScalar(text) && ':' !in text
  {
    var text := sign + whole + "." + fraction;
    hide *;
    DecimalIsRead(sign, whole, fraction);
    DecimalIsClean(sign, whole, fraction);
    UnmarkedParses(text);
  }

  lemma DecimalRoundTrip(n: int, places: nat)
    requires places > 0
    ensures Pow10(places) > 0.0 && ParseScalar(DecimalText(n, places)) == Number(n as real / Pow10(places))
    ensures CleanScalar(DecimalText(n, places)) && ':' !in DecimalText(n, places)
  {
    hide DigitsText, Padded, Whole, DigitsValue, Pow10, ParseScalar, CleanScalar, AllDigits;
    var m := if n < 0 then -n else n;
    MagnitudeParts(m, places);
    var sign, whole, fraction := if n < 0 then "-" else "", DigitsText(Whole(m, places)), Padded(m, places);
    DigitsOfBoth(whole, fraction);
    Pow10Positive(places);
    var w, f, p := DigitsValue(whole) as real, DigitsValue(fraction) as real, Pow10(places);
    Share(w, f, p, m as real);
    SpelledDecimal(sign, whole, fraction, w + f / p);
    assert n as real == if sign == "-" then -(m as real) else m as real;
  }

  lemma DigitsOfBoth(a: string, b: string)
    requires AllDigits(a) && AllDigits(b)
    ensures forall i | 0 <= i < |a| :: IsDigit(a[i])
    ensures forall i | 0 <= i < |b| :: IsDigit(b[i])
  {
  }

  /** The text of a scalar survives on a line. */
  predicate CleanScalar(text: string) {
    text != "" && Trimmed(text) && '\n' !in text
  }

  /** Every notation of a scalar is read as what it means. */
  lemma {:induction false} ScalarRoundTrip(sc: Scalar)
    requires PrintableScalar(sc)
    ensures ParseScalar(ScalarText(sc)) == ScalarMeaning(sc) && CleanScalar(ScalarText(sc))
  {
    var text := ScalarText(sc);
    match sc
    case Integer(n) => IntegerRoundTrip(n);
    case Decimal(n, places) => DecimalRoundTrip(n, places);
    case Bare(s) => StandsForItself(s);
    case DoubleQuoted(s) =>
      TrimOfTrimmed(text);
      assert text[1..|text| - 1] == s;
    case SingleQuoted(s) =>
      TrimOfTrimmed(text);
      assert text[1..|text| - 1] == s;
    case _ => TrimOfTrimmed(text);
  }

  // -------------------------------------------------------------------------- one line

  /** Key and text may be set apart by any number of spaces. */
  lemma {:induction false} EntryRoundTrip(key: string, before: nat, after: nat, text: string)
    requires Trimmed(key) && ':' !in key && Trimmed(text)
    ensures EntryOf(key + Spaces(before) + ":" + Spaces(after) + text)
      == if text == "" then Opens(key) else Inline(key, ParseScalar(text))
  {
    var padded := key + Spaces(before);
    var content := padded + ":" + (Spaces(after) + text);
    assert content == key + Spaces(before) + ":" + Spaces(after) + text;
    assert content[..|padded|] == padded && content[|padded| + 1..] == Spaces(after) + text;
    assert ':' !in padded;
    IndexOfFirst(content, ':', |padded|);
    TrimPadded(key, before);
    TrimIndented(after, text);
    hide IndexOf, ParseScalar;
  }

  lemma EntryLine(key: string, text: string)
    requires PrintableKey(key) && Trimmed(text) && (text == "" || CleanScalar(text))
    ensures EntryOf(EntryText(key, text)) == if text == "" then Opens(key) else Inline(key, ParseScalar(text))
    ensures CleanContent(EntryText(key, text)) && !("- " <= EntryText(key, text))
    ensures CleanContent("- " + EntryText(key, text)) && ItemText("- " + EntryText(key, text)) == EntryText(key, text)
  {
    var content, width := EntryText(key, text), if text == "" then 0 else 1;
    EntryIsClean(key, text);
    EntrySpelling(key, text);
    KeyFacts(key);
    ContentFacts(content);
    hide *;
    EntryRoundTrip(key, 0, width, text);
    ItemOfClean(content);
  }

  lemma EntrySpelling(key: string, text: string)
    ensures EntryText(key, text) == key + Spaces(0) + ":" + Spaces(if text == "" then 0 else 1) + text
  {
    assert Spaces(0) == "" && Spaces(1) == " ";
  }

  lemma KeyFacts(key: string)
    requires PrintableKey(key)
    ensures Trimmed(key) && ':' !in key
  {
  }

  lemma ContentFacts(content: string)
    requires CleanContent(content)
    ensures content != "" && Trimmed(content) && '\n' !in content
  {
  }

  lemma EntryIsClean(key: string, text: string)
    requires PrintableKey(key) && (text == "" || CleanScalar(text))
    ensures CleanContent(EntryText(key, text)) && !("- " <= EntryText(key, text))
  {
    var content := EntryText(key, text);
    assert content[..|key|] == key && content[|key|] == ':';
    assert |key| >= 2 ==> content[..2] == key[..2];
    assert text != "" ==> content[|content| - 1] == text[|text| - 1];
  }

  lemma ItemOfClean(content: string)
    requires content != "" && Trimmed(content) && '\n' !in content
    ensures CleanContent("- " + content) && ItemText("- " + content) == content
  {
    var item := "- " + content;
    TrimOfTrimmed(content);
    assert item[2..] == content && "- " <= item && item[0] == '-';
    assert item[|item| - 1] == content[|content| - 1];
    hide Trim;
  }

  lemma ScalarItemLine(text: string)
    requires CleanScalar(text) && ':' !in text
    ensures CleanContent("- " + text) && ItemText("- " + text) == text && EntryOf(text) == Malformed
  {
    ItemOfClean(text);
    IndexOfAbsent(text, ':');
    hide Trim, IndexOf;
  }

  /** A content that survives splitting, trimming and comment removal. */
  predicate CleanContent(content: string) {
    content != "" && Trimmed(content) && '\n' !in content && !("#" <= content)
  }

  ghost predicate CleanLines(lines: seq<Line>) {
    forall i | 0 <= i < |lines| :: CleanContent(lines[i].content)
  }

  lemma CleanConcat(a: seq<Line>, b: seq<Line>)
    requires CleanLines(a) && CleanLines(b)
    ensures CleanLines(a + b)
  {
  }

  // ----------------------------------------------------------- trees of written documents

  lemma {:induction false} PropertyFits(f: Property, indent: nat)
    requires PrintableKey(f.key) && Printable(f.node)
    ensures var e := EntryOfProperty(f);
      && FitsEntry(e) && EntryKey(e) == f.key && EntryValue(e) == Meaning(f.node)
      && CleanLines(EntryLines(e, indent)) && CleanContent("- " + e.content)
      && ItemText("- " + e.content) == e.content && e.content != ""
    decreases f, 0
  {
    hide EntryOf, EntryText, PrintableKey, BlockLines, Fits, CleanContent, TreeOf, ItemText, ScalarText, ParseScalar,
      ScalarMeaning;
    match f.node
    case Leaf(sc) =>
      ScalarRoundTrip(sc);
      EntryLine(f.key, ScalarText(sc));
      ContentIsThere(EntryText(f.key, ScalarText(sc)));
      CleanLine(indent, EntryText(f.key, ScalarText(sc)), []);
    case _ =>
      EntryLine(f.key, "");
      ContentIsThere(EntryText(f.key, ""));
      TreeFits(f.node, indent + 2);
      CleanLine(indent, EntryText(f.key, ""), BlockLines(TreeOf(f.node), indent + 2));
  }

  lemma ContentIsThere(content: string)
    requires CleanContent(content)
    ensures content != ""
  {
  }

  lemma CleanLine(indent: nat, content: string, rest: seq<Line>)
    requires CleanContent(content) && CleanLines(rest)
    ensures CleanLines([Line(indent, content)] + rest)
  {
    hide CleanContent;
  }

  lemma {:induction false} PropertiesFit(seed: seq<Field>, fields: seq<Property>, indent: nat)
    requires PrintableFields(fields) && DistinctKeys(fields)
    requires forall f, g | f in fields && g in seed :: f.key != g.key
    ensures FitAll(EntriesOf(fields)) && FieldsInto(seed, EntriesOf(fields)) == seed + FieldMeanings(fields)
    ensures CleanLines(EntriesLines(EntriesOf(fields), indent))
    decreases fields, 1
  {
    hide FitsEntry, EntryLines, EntryValue, EntryKey, SetField, FitAll, EntryOfProperty, PrintableKey, Printable,
      Meaning, CleanLines, FieldsInto, EntriesLines;
    if fields == [] {
      NoEntries([], 0, indent, seed);
      NoLinesAreClean();
      assert seed + [] == seed;
    } else {
      var f, rest := fields[0], fields[1..];
      assert fields == [f] + rest && f in fields;
      PropertyFits(f, indent);
      var field := Field(f.key, Meaning(f.node));
      SetFieldAppends(seed, field);
      PropertiesFit(seed + [field], rest, indent);
      EntriesStep(EntriesOf(fields), indent, seed);
      assert EntriesOf(fields)[1..] == EntriesOf(rest);
      CleanConcat(EntryLines(EntryOfProperty(f), indent), EntriesLines(EntriesOf(rest), indent));
      assert seed + [field] + FieldMeanings(rest) == seed + FieldMeanings(fields);
    }
  }

  lemma NoLinesAreClean()
    ensures CleanLines([]) && forall indent :: EntriesLines([], indent) == [] && ItemsLines([], indent) == []
  {
  }

  lemma SetFieldAppends(fields: seq<Field>, f: Field)
    requires forall g | g in fields :: g.key != f.key
    ensures SetField(fields, f.key, f.value) == fields + [f]
  {
    KeyIsNew(fields, f.key);
    SetFieldLaw(fields, f.key, f.value, f.key);
  }

  lemma {:induction false} KeyIsNew(fields: seq<Field>, key: string)
    requires forall g | g in fields :: g.key != key
    ensures FieldAt(fields, key).None?
  {
    if fields != [] {
      KeyIsNew(fields[1..], key);
    }
  }

  lemma {:induction false} NodeFitsAsItem(node: Node, indent: nat)
    requires PrintableItem(node)
    ensures FitsItem(ItemOf(node)) && ItemValue(ItemOf(node)) == Meaning(node)
    ensures CleanLines(ItemLines(ItemOf(node), indent))
    decreases node, 1
  {
    hide EntryOf, ItemText, Fits, FitsEntry, BlockLines, EntriesLines, ScalarText, ParseScalar, ScalarMeaning,
      CleanContent, CleanLines, FieldsInto, EntryOfProperty, PrintableFields, Meaning, CleanScalar, BlockValue;
    match node
    case Leaf(sc) =>
      ScalarRoundTrip(sc);
      ScalarItemLine(ScalarText(sc));
      TextIsThere(ScalarText(sc));
      LeafMeans(sc);
      NoLinesAreClean();
      assert [] + EntriesLines([], indent + 2) == [];
      CleanLine(indent, "- " + ScalarText(sc), [] + EntriesLines([], indent + 2));
    case Mapping(fields) =>
      MappingParts(fields);
      MappingItem(fields, indent);
  }

  lemma MappingParts(fields: seq<Property>)
    requires Printable(Mapping(fields))
    ensures fields != [] && DistinctKeys(fields) && PrintableFields(fields)
    ensures Meaning(Mapping(fields)) == Record(FieldMeanings(fields))
  {
  }

  lemma TextIsThere(text: string)
    requires CleanScalar(text)
    ensures text != ""
  {
  }

  lemma LeafMeans(sc: Scalar)
    ensures Meaning(Leaf(sc)) == ScalarMeaning(sc)
  {
  }

  /** A mapping in a list: its first field on the item's line, the others below it. */
  lemma {:induction false} MappingItem(fields: seq<Property>, indent: nat)
    requires fields != [] && PrintableFields(fields) && DistinctKeys(fields)
    ensures var i := ItemOf(Mapping(fields));
      FitsItem(i) && ItemValue(i) == Record(FieldMeanings(fields)) && CleanLines(ItemLines(i, indent))
    decreases fields, 2
  {
    hide EntryOf, ItemText, Fits, FitsEntry, BlockLines, EntriesLines, CleanContent, CleanLines, FieldsInto,
      EntryOfProperty, PrintableKey, Printable, Meaning, BlockValue, EntryLines, EntriesOf;
    var f, rest := fields[0], fields[1..];
    assert fields == [f] + rest && f in fields;
    var e, first := EntryOfProperty(f), Field(f.key, Meaning(f.node));
    PropertyFits(f, indent + 2);
    PropertiesFit([first], rest, indent + 2);
    FitAllOf(EntriesOf(rest));
    EntryParts(e);
    BelowIsClean(e, indent + 2);
    var below := if e.below.Some? then BlockLines(e.below.value, indent + 4) else [];
    CleanConcat(below, EntriesLines(EntriesOf(rest), indent + 2));
    CleanLine(indent, "- " + e.content, below + EntriesLines(EntriesOf(rest), indent + 2));
    assert ItemDepth("- " + e.content) == 4;
  }

  /** An entry that fits, told by how its line reads. */
  lemma EntryParts(e: EntryTree)
    requires FitsEntry(e)
    ensures match EntryOf(e.content)
      case Malformed => false
      case Inline(key, value) => e.below.None? && EntryKey(e) == key && EntryValue(e) == value
      case Opens(key) =>
        e.below.Some? && Fits(e.below.value) && EntryKey(e) == key && EntryValue(e) == BlockValue(e.below.value)
  {
    hide EntryOf, Fits, BlockValue;
  }

  lemma BelowIsClean(e: EntryTree, indent: nat)
    requires CleanLines(EntryLines(e, indent))
    ensures e.below.Some? ==> CleanLines(BlockLines(e.below.value, indent + 2))
    ensures CleanLines([])
  {
    hide BlockLines, CleanContent;
    if e.below.Some? {
      var part := BlockLines(e.below.value, indent + 2);
      assert forall i | 0 <= i < |part| :: EntryLines(e, indent)[i + 1] == part[i];
    }
  }

  lemma {:induction false} NodesFitAsItems(items: seq<Node>, indent: nat)
    requires forall item | item in items :: PrintableItem(item)
    ensures (forall i | i in ItemsOf(items) :: FitsItem(i)) && ItemValues(ItemsOf(items)) == Meanings(items)
    ensures CleanLines(ItemsLines(ItemsOf(items), indent))
    decreases items, 0
  {
    hide FitsItem, ItemLines, ItemValue, ItemOf, PrintableItem, Meaning, CleanLines, ItemsLines, ItemValues;
    if items == [] {
      NoEntries([], 0, indent, []);
      NoLinesAreClean();
    } else {
      assert items == [items[0]] + items[1..];
      NodeFitsAsItem(items[0], indent);
      NodesFitAsItems(items[1..], indent);
      ItemsStep(ItemsOf(items), indent);
      assert ItemsOf(items)[1..] == ItemsOf(items[1..]);
      CleanConcat(ItemLines(ItemOf(items[0]), indent), ItemsLines(ItemsOf(items[1..]), indent));
    }
  }

  /** The tree of a printable list or mapping is one of the grammar, means what was meant, and prints to clean lines. */
  lemma {:induction false} TreeFits(node: Node, indent: nat)
    requires !node.Leaf? && Printable(node)
    ensures Fits(TreeOf(node)) && BlockValue(TreeOf(node)) == Meaning(node)
    ensures CleanLines(BlockLines(TreeOf(node), indent))
    decreases node, 0
  {
    hide FitsItem, FitsEntry, ItemsLines, EntriesLines, FieldsInto, ItemValues, CleanLines, PrintableItem, PrintableKey;
    match node
    case Listing(items) =>
      NodesFitAsItems(items, indent);
    case Mapping(fields) =>
      PropertiesFit([], fields, indent);
      FitAllOf(EntriesOf(fields));
      assert [] + FieldMeanings(fields) == FieldMeanings(fields);
  }

  // ------------------------------------------------------------------ the text of a document

  lemma SignificantLine(line: Line, rest: seq<string>)
    requires CleanContent(line.content)
    ensures SignificantLines([LineText(line)] + rest) == [line] + SignificantLines(rest)
  {
    var text := LineText(line);
    assert text[|text| - 1] == line.content[|line.content| - 1];
    assert TrimEnd(text) == text;
    TrimIndented(line.indent, line.content);
    assert ([text] + rest)[1..] == rest;
  }

  lemma {:induction false} JoinThenSplit(lines: seq<Line>)
    requires lines != [] && CleanLines(lines)
    ensures SignificantLines(SplitLines(JoinLines(lines))) == lines
  {
    hide CleanContent, SignificantLines, LineText;
    var text := LineText(lines[0]);
    LineTextFacts(lines[0]);
    if |lines| == 1 {
      IndexOfAbsent(text, '\n');
      SignificantLine(lines[0], []);
      assert [text] + [] == [text];
      NoLines();
      assert [lines[0]] + [] == lines;
    } else {
      var joined := JoinLines(lines);
      assert joined[..|text|] == text;
      assert joined[|text| + 1..] == JoinLines(lines[1..]);
      IndexOfFirst(joined, '\n', |text|);
      JoinThenSplit(lines[1..]);
      SignificantLine(lines[0], SplitLines(JoinLines(lines[1..])));
    }
  }

  lemma NoLines()
    ensures SignificantLines([]) == []
  {
  }

  lemma LineTextFacts(line: Line)
    requires CleanContent(line.content)
    ensures '\n' !in LineText(line) && Chomp(LineText(line)) == LineText(line)
  {
    var text := LineText(line);
    assert text[|text| - 1] == line.content[|line.content| - 1];
  }


  /** Parsing the canonical text of a printable document gives what the document means. */
  lemma {:induction false} DocumentRoundTrip(node: Node)
    requires !node.Leaf? && Printable(node)
    ensures ParseYaml(PrintDocument(node)) == Ok(Meaning(node))
  {
    hide BlockFrom, SplitLines, SignificantLines, Printable, JoinLines, BlockLines, CleanLines, Fits, BlockValue,
      Meaning, TreeOf;
    var lines := PrintBlock(node);
    TreeFits(node, 0);
    BlockStartsText(node, lines);
    JoinThenSplit(lines);
    ReadBlock(lines, 0, |lines|, 0, TreeOf(node));
  }

  lemma BlockStartsText(node: Node, lines: seq<Line>)
    requires !node.Leaf? && Fits(TreeOf(node)) && PrintBlock(node) <= lines
    ensures lines != [] && StandAt(lines, 0, |PrintBlock(node)|, PrintBlock(node))
    ensures lines[0].indent == 0 && lines[0].IsItem() == node.Listing?
  {
    hide Fits, BlockLines;
    BlockStarts(lines, 0, |PrintBlock(node)|, 0, TreeOf(node));
  }

  /**
   * A mapping followed by a list in the first column, or a list by a mapping: the second block is dropped
   * without an error, whatever the two are.
   */
  lemma {:induction false} TailSilentlyDropped(v: Node, w: Node)
    requires Printable(v) && Printable(w) && !v.Leaf? && !w.Leaf? && v.Listing? != w.Listing?
    ensures ParseYaml(JoinLines(PrintBlock(v) + PrintBlock(w))) == Ok(Meaning(v))
  {
    hide BlockFrom, SplitLines, SignificantLines, Printable, JoinLines, BlockLines, CleanLines, Fits, BlockValue,
      Meaning, StandAt;
    var first, second := PrintBlock(v), PrintBlock(w);
    var lines := first + second;
    TreeFits(v, 0);
    TreeFits(w, 0);
    CleanConcat(first, second);
    BlockStartsText(v, lines);
    BlockStartsText(w, second);
    JoinThenSplit(lines);
    assert lines[|first|] == second[0];
    ReadBlock(lines, 0, |first|, 0, TreeOf(v));
  }

  // ------------------------------------------------- what does not count in a text

  /** Blank, or white space and then a comment. */
  ghost predicate Filler(line: string) {
    && '\n' !in line
    && ((forall c | c in line :: IsSpace(c))
        || exists k :: 0 <= k < |line| && line[k] == '#' && forall i | 0 <= i < k :: IsSpace(line[i]))
  }

  /** The significant lines of two texts joined by a line end are those of the first and those of the second. */
  lemma {:induction false} LinesOfJoin(a: string, b: string)
    ensures SignificantLines(SplitLines(a + "\n" + b))
      == SignificantLines(SplitLines(a)) + SignificantLines(SplitLines(b))
    decreases |a|
  {
    hide SignificantLines;
    var text, end := a + "\n" + b, IndexOf(a, '\n');
    if end == -1 {
      NoLineEnd(a);
      IndexOfFirst(text, '\n', |a|) by {
        assert text[..|a|] == a;
      }
      assert text[..|a|] == a && text[|a| + 1..] == b;
      SameLine(Chomp(a), a, SplitLines(b));
    } else {
      IndexOfHit(a, '\n');
      FirstIndex(a, '\n');
      IndexOfFirst(text, '\n', end) by {
        assert text[..end] == a[..end];
      }
      assert text[..end] == a[..end] && text[end + 1..] == a[end + 1..] + "\n" + b;
      LinesOfJoin(a[end + 1..], b);
      LineThenRest(Chomp(a[..end]), SplitLines(text[end + 1..]), SplitLines(a[end + 1..]), SplitLines(b));
    }
  }

  lemma {:induction false} NoLineEnd(s: string)
    requires IndexOf(s, '\n') == -1
    ensures '\n' !in s
  {
    if s != "" {
      NoLineEnd(s[1..]);
      assert s == [s[0]] + s[1..];
    }
  }

  lemma {:induction false} FirstIndex(s: string, c: char)
    ensures IndexOf(s, c) > -1 ==> c !in s[..IndexOf(s, c)]
  {
    if s != "" && s[0] != c && IndexOf(s[1..], c) > -1 {
      FirstIndex(s[1..], c);
      assert s[..IndexOf(s, c)] == [s[0]] + s[1..][..IndexOf(s[1..], c)];
    }
  }

  /** Lines count one by one. */
  lemma LineByLine(line: string, rest: seq<string>)
    ensures SignificantLines([line] + rest) == SignificantLines([line]) + SignificantLines(rest)
  {
    assert ([line] + rest)[1..] == rest && [line][1..] == [];
    hide IsBlankOrComment, TrimEnd, TrimStart, Trim;
  }

  /** A carriage return at the end of a line is trimmed with the other white space there. */
  lemma SameLine(line: string, other: string, rest: seq<string>)
    requires line == Chomp(other)
    ensures SignificantLines([line] + rest) == SignificantLines([other]) + SignificantLines(rest)
  {
    assert TrimEnd(line) == TrimEnd(other);
    SameTrimmed(line, other);
    hide SignificantLines;
    LineByLine(line, rest);
  }

  lemma LineThenRest(line: string, all: seq<string>, a: seq<string>, b: seq<string>)
    requires SignificantLines(all) == SignificantLines(a) + SignificantLines(b)
    ensures SignificantLines([line] + all) == SignificantLines([line] + a) + SignificantLines(b)
  {
    hide SignificantLines;
    LineByLine(line, all);
    LineByLine(line, a);
  }

  lemma {:induction false} CommentStart(s: string, k: nat)
    requires k < |s| && s[k] == '#' && forall i | 0 <= i < k :: IsSpace(s[i])
    ensures "#" <= TrimStart(TrimEnd(s))
  {
    TrimEndCommutes(s);
    SpacesThenMark(s, k);
    TrimEndKeepsFirst(TrimStart(s));
  }

  lemma {:induction false} SpacesThenMark(s: string, k: nat)
    requires k < |s| && s[k] == '#' && forall i | 0 <= i < k :: IsSpace(s[i])
    ensures "#" <= TrimStart(s)
  {
    if k > 0 {
      SpacesThenMark(s[1..], k - 1);
    }
  }

  lemma {:induction false} FillerIsInsignificant(line: string)
    requires Filler(line)
    ensures SignificantLines(SplitLines(line)) == []
  {
    IndexOfAbsent(line, '\n');
    assert [line][1..] == [];
    NoLines();
    if forall c | c in line :: IsSpace(c) {
      AllSpace(line);
      assert TrimEnd(line) == "" && Trim("") == "";
    } else {
      var k :| 0 <= k < |line| && line[k] == '#' && forall i | 0 <= i < k :: IsSpace(line[i]);
      CommentStart(line, k);
    }
    hide TrimEnd, TrimStart, Trim, SplitLines;
  }

  /** Blank lines and whole-line comments may be put anywhere between lines. */
  lemma {:induction false} FillersAreIgnored(before: string, line: string, after: string)
    requires Filler(line)
    ensures ParseYaml(before + "\n" + line + "\n" + after) == ParseYaml(before + "\n" + after)
    ensures ParseYaml(line + "\n" + after) == ParseYaml(after)
    ensures ParseYaml(before + "\n" + line) == ParseYaml(before)
  {
    hide SplitLines, SignificantLines, BlockFrom, Filler;
    FillerIsInsignificant(line);
    LinesOfJoin(before, line + "\n" + after);
    assert before + "\n" + line + "\n" + after == before + "\n" + (line + "\n" + after);
    LinesOfJoin(line, after);
    LinesOfJoin(before, after);
    LinesOfJoin(before, line);
    var first, rest := SignificantLines(SplitLines(before)), SignificantLines(SplitLines(after));
    assert [] + rest == rest && first + [] == first;
  }

  lemma {:induction false} SpaceAtEnd(line: string, space: string)
    requires forall c | c in space :: IsSpace(c)
    ensures TrimEnd(line + space) == TrimEnd(line)
    decreases |space|
  {
    if space == "" {
      assert line + space == line;
    } else {
      var shorter := space[..|space| - 1];
      assert (line + space)[..|line + space| - 1] == line + shorter;
      assert space[|space| - 1] in space && forall c | c in shorter :: c in space;
      SpaceAtEnd(line, shorter);
    }
  }

  /** White space at the end of a text, so also before any line end, changes none of its significant lines. */
  lemma {:induction false} TrailingSpace(text: string, space: string)
    requires '\n' !in space && forall c | c in space :: IsSpace(c)
    ensures SignificantLines(SplitLines(text + space)) == SignificantLines(SplitLines(text))
    decreases |text|
  {
    hide SignificantLines, IsSpace;
    var end := IndexOf(text, '\n');
    if end == -1 {
      NoLineEnd(text);
      IndexOfAbsent(text + space, '\n');
      SpaceAtEnd(text, space);
      SameTrimmed(text + space, text);
    } else {
      IndexOfHit(text, '\n');
      FirstIndex(text, '\n');
      IndexOfFirst(text + space, '\n', end) by {
        assert (text + space)[..end] == text[..end];
      }
      assert (text + space)[..end] == text[..end] && (text + space)[end + 1..] == text[end + 1..] + space;
      TrailingSpace(text[end + 1..], space);
      SameRest(Chomp(text[..end]), SplitLines(text[end + 1..] + space), SplitLines(text[end + 1..]));
    }
  }

  lemma SameTrimmed(a: string, b: string)
    requires TrimEnd(a) == TrimEnd(b)
    ensures SignificantLines([a]) == SignificantLines([b])
  {
    assert [a][1..] == [] && [b][1..] == [];
    hide IsBlankOrComment, TrimEnd, TrimStart, Trim;
  }

  lemma SameRest(line: string, a: seq<string>, b: seq<string>)
    requires SignificantLines(a) == SignificantLines(b)
    ensures SignificantLines([line] + a) == SignificantLines([line] + b)
  {
    hide SignificantLines;
    LineByLine(line, a);
    LineByLine(line, b);
  }

  /** White space before a line end does not count; a carriage return is an instance of it. */
  lemma {:induction false} TrailingSpaceIsIgnored(before: string, space: string, after: string)
    requires '\n' !in space && forall c | c in space :: IsSpace(c)
    ensures ParseYaml(before + space + "\n" + after) == ParseYaml(before + "\n" + after)
    ensures ParseYaml(before + space) == ParseYaml(before)
  {
    hide SplitLines, SignificantLines, BlockFrom, IsSpace;
    LinesOfJoin(before + space, after);
    LinesOfJoin(before, after);
    TrailingSpace(before, space);
  }
}
