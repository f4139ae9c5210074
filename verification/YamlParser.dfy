/** The indentation parser for the block subset of YAML, and the documents it reads back exactly. */
module YamlParser {
  import opened Text
  import opened Wrappers

  datatype Value =
    | Null
    | Bool(b: bool)
    | Number(n: real)
    | Str(s: string)
    | List(items: seq<Value>)
    | Record(fields: seq<Field>)

  /** One property of a record; records list their properties in insertion order. */
  datatype Field = Field(key: string, value: Value)

  /** A source line after trimming: how far it is indented and what it says. */
  datatype Line = Line(indent: nat, content: string) {
    predicate IsItem() {
      "- " <= content
    }
  }

  datatype Error =
    | UnexpectedIndentation(near: string)
    | InvalidEntry(entry: string)
    | UnexpectedEnd
    | ExpectedIndentation(atLeast: nat)

  datatype Parsed<T> = Parsed(next: nat, value: T)

  // ---------------------------------------------------------------- scalars

  function Unsigned(text: string): string {
    if "-" <= text then text[1..] else text
  }

  predicate IsIntegerText(text: string) {
    AllDigits(Unsigned(text))
  }

  predicate IsDecimalText(text: string) {
    var digits := Unsigned(text);
    var dot := IndexOf(digits, '.');
    dot != -1 && AllDigits(digits[..dot]) && AllDigits(digits[dot + 1..])
  }

  function Pow10(n: nat): real {
    if n == 0 then 1.0 else 10.0 * Pow10(n - 1)
  }

  lemma Pow10Positive(n: nat)
    ensures Pow10(n) > 0.0
  {
  }

  function IntegerValue(text: string): int
    requires IsIntegerText(text)
  {
    if "-" <= text then -(DigitsValue(text[1..]) as int) else DigitsValue(text)
  }

  function DecimalValue(text: string): real
    requires IsDecimalText(text)
  {
    var digits := Unsigned(text);
    var dot := IndexOf(digits, '.');
    var fraction := digits[dot + 1..];
    Pow10Positive(|fraction|);
    var magnitude := DigitsValue(digits[..dot]) as real + DigitsValue(fraction) as real / Pow10(|fraction|);
    if "-" <= text then -magnitude else magnitude
  }

  predicate Quoted(text: string, mark: char)
    requires text != ""
  {
    text[0] == mark && text[|text| - 1] == mark
  }

  /** `slice(1, -1)`: a lone quotation mark has nothing between its ends. */
  function Unquote(text: string): string {
    if |text| < 2 then "" else text[1..|text| - 1]
  }

  function ParseScalar(value: string): Value {
    var text := Trim(value);
    if text == "" then Str("")
    else if Quoted(text, '"') || Quoted(text, '\'') then Str(Unquote(text))
    else if text == "true" then Bool(true)
    else if text == "false" then Bool(false)
    else if text == "null" then Null
    else if IsIntegerText(text) then Number(IntegerValue(text) as real)
    else if IsDecimalText(text) then Number(DecimalValue(text))
    else Str(text)
  }

  // ----------------------------------------------------------------- blocks

  /** `result[key] = value`: an existing property keeps its place. */
  function SetField(fields: seq<Field>, key: string, value: Value): (r: seq<Field>) {
    if fields == [] then [Field(key, value)]
    else if fields[0].key == key then [Field(key, value)] + fields[1..]
    else [fields[0]] + SetField(fields[1..], key, value)
  }

  /** How a mapping entry reads: no separator, a value on the line, or a block that follows. */
  datatype Entry = Malformed | Inline(key: string, value: Value) | Opens(key: string)

  function EntryOf(content: string): Entry {
    var separator := IndexOf(content, ':');
    if separator == -1 then Malformed else
    var key := Trim(content[..separator]);
    var text := Trim(content[separator + 1..]);
    if text == "" then Opens(key) else Inline(key, ParseScalar(text))
  }

  /** What `parseObject` returns once its loop stands at `index` with `fields` collected. */
  function ObjectFrom(lines: seq<Line>, index: nat, indent: nat, fields: seq<Field>)
    : (r: Result<Parsed<seq<Field>>, Error>)
    requires index <= |lines|
    ensures r.Ok? ==> index <= r.value.next <= |lines|
    ensures r.Ok? && index < |lines| && lines[index].indent >= indent && !lines[index].IsItem() ==> index < r.value.next
    decreases |lines| - index, 0
  {
    if index == |lines| then Ok(Parsed(index, fields)) else
    var line := lines[index];
    if line.indent < indent then Ok(Parsed(index, fields))
    else if line.indent > indent then Err(UnexpectedIndentation(line.content))
    else if line.IsItem() then Ok(Parsed(index, fields))
    else
      match EntryOf(line.content)
      case Malformed => Err(InvalidEntry(line.content))
      case Inline(key, value) => ObjectFrom(lines, index + 1, indent, SetField(fields, key, value))
      case Opens(key) =>
        var nested :- BlockFrom(lines, index + 1, indent + 2);
        ObjectFrom(lines, nested.next, indent, SetField(fields, key, nested.value))
  }

  /** The item that starts on line `index` of an array, and the line after it. */
  function ItemAt(lines: seq<Line>, index: nat, indent: nat): (r: Result<Parsed<Value>, Error>)
    requires index < |lines| && lines[index].IsItem()
    ensures r.Ok? ==> index < r.value.next <= |lines|
    decreases |lines| - index, 0
  {
    var remainder := Trim(lines[index].content[2..]);
    if remainder == "" then BlockFrom(lines, index + 1, indent + 2) else
    match EntryOf(remainder)
    case Malformed => Ok(Parsed(index + 1, ParseScalar(remainder)))
    case Inline(key, value) =>
      var nested :- ObjectFrom(lines, index + 1, indent + 2, [Field(key, value)]);
      Ok(Parsed(nested.next, Record(nested.value)))
    case Opens(key) =>
      var nested :- BlockFrom(lines, index + 1, indent + 4);
      var merged :- ObjectFrom(lines, nested.next, indent + 2, [Field(key, nested.value)]);
      Ok(Parsed(merged.next, Record(merged.value)))
  }

  /** What `parseArray` returns once its loop stands at `index` with `items` collected. */
  function ArrayFrom(lines: seq<Line>, index: nat, indent: nat, items: seq<Value>)
    : (r: Result<Parsed<seq<Value>>, Error>)
    requires index <= |lines|
    ensures r.Ok? ==> index <= r.value.next <= |lines|
    ensures r.Ok? && index < |lines| && lines[index].indent >= indent && lines[index].IsItem() ==> index < r.value.next
    decreases |lines| - index, 1
  {
    if index == |lines| then Ok(Parsed(index, items)) else
    var line := lines[index];
    if line.indent < indent then Ok(Parsed(index, items))
    else if line.indent > indent then Err(UnexpectedIndentation(line.content))
    else if !line.IsItem() then Ok(Parsed(index, items))
    else
      var item :- ItemAt(lines, index, indent);
      ArrayFrom(lines, item.next, indent, items + [item.value])
  }

  function BlockFrom(lines: seq<Line>, start: nat, indent: nat): (r: Result<Parsed<Value>, Error>)
    requires start <= |lines|
    ensures r.Ok? ==> start < r.value.next <= |lines|
    decreases |lines| - start, 2
  {
    if start == |lines| then Err(UnexpectedEnd)
    else if lines[start].indent < indent then Err(ExpectedIndentation(indent))
    else if lines[start].IsItem() then
      var list :- ArrayFrom(lines, start, indent, []);
      Ok(Parsed(list.next, List(list.value)))
    else
      var mapping :- ObjectFrom(lines, start, indent, []);
      Ok(Parsed(mapping.next, Record(mapping.value)))
  }

  // ------------------------------------------------- the parser as it is run

  method ParseObject(lines: seq<Line>, startIndex: nat, indent: nat, seed: seq<Field>)
    returns (r: Result<Parsed<seq<Field>>, Error>)
    requires startIndex <= |lines|
    ensures r == ObjectFrom(lines, startIndex, indent, seed)
    decreases |lines| - startIndex, 0
  {
    hide Trim, IndexOf, ParseScalar, SetField, BlockFrom;
    ghost var meaning := ObjectFrom(lines, startIndex, indent, seed);
    var result := seed;
    var index := startIndex;
    while index < |lines|
      invariant startIndex <= index <= |lines|
      invariant ObjectFrom(lines, index, indent, result) == meaning
    {
      var line := lines[index];
      if line.indent < indent {
        break;
      }
      if line.indent > indent {
        return Err(UnexpectedIndentation(line.content));
      }
      if line.IsItem() {
        break;
      }
      var separator := IndexOf(line.content, ':');
      if separator == -1 {
        return Err(InvalidEntry(line.content));
      }
      var key := Trim(line.content[..separator]);
      var remainder := Trim(line.content[separator + 1..]);
      if |remainder| > 0 {
        result := SetField(result, key, ParseScalar(remainder));
        index := index + 1;
        continue;
      }
      var nested := ParseBlock(lines, index + 1, indent + 2);
      if nested.Err? {
        return Err(nested.error);
      }
      result := SetField(result, key, nested.value.value);
      index := nested.value.next;
    }
    r := Ok(Parsed(index, result));
  }

  method ParseArray(lines: seq<Line>, startIndex: nat, indent: nat)
    returns (r: Result<Parsed<seq<Value>>, Error>)
    requires startIndex <= |lines|
    ensures r == ArrayFrom(lines, startIndex, indent, [])
    decreases |lines| - startIndex, 1
  {
    hide Trim, IndexOf, ParseScalar, SetField, BlockFrom, ObjectFrom;
    ghost var meaning := ArrayFrom(lines, startIndex, indent, []);
    var result: seq<Value> := [];
    var index := startIndex;
    while index < |lines|
      invariant startIndex <= index <= |lines|
      invariant ArrayFrom(lines, index, indent, result) == meaning
    {
      var line := lines[index];
      if line.indent < indent {
        break;
      }
      if line.indent > indent {
        return Err(UnexpectedIndentation(line.content));
      }
      if !line.IsItem() {
        break;
      }
      var remainder := Trim(line.content[2..]);
      if |remainder| == 0 {
        var nested := ParseBlock(lines, index + 1, indent + 2);
        if nested.Err? {
          return Err(nested.error);
        }
        result := result + [nested.value.value];
        index := nested.value.next;
        continue;
      }
      var separator := IndexOf(remainder, ':');
      if separator != -1 {
        var key := Trim(remainder[..separator]);
        var valueText := Trim(remainder[separator + 1..]);
        if |valueText| > 0 {
          var nested := ParseObject(lines, index + 1, indent + 2, [Field(key, ParseScalar(valueText))]);
          if nested.Err? {
            return Err(nested.error);
          }
          result := result + [Record(nested.value.value)];
          index := nested.value.next;
          continue;
        }
        var nested := ParseBlock(lines, index + 1, indent + 4);
        if nested.Err? {
          return Err(nested.error);
        }
        var merged := ParseObject(lines, nested.value.next, indent + 2, [Field(key, nested.value.value)]);
        if merged.Err? {
          return Err(merged.error);
        }
        result := result + [Record(merged.value.value)];
        index := merged.value.next;
        continue;
      }
      result := result + [ParseScalar(remainder)];
      index := index + 1;
    }
    r := Ok(Parsed(index, result));
  }

  method ParseBlock(lines: seq<Line>, startIndex: nat, indent: nat)
    returns (r: Result<Parsed<Value>, Error>)
    requires startIndex <= |lines|
    ensures r == BlockFrom(lines, startIndex, indent)
    decreases |lines| - startIndex, 2
  {
    if startIndex >= |lines| {
      return Err(UnexpectedEnd);
    }
    var line := lines[startIndex];
    if line.indent < indent {
      return Err(ExpectedIndentation(indent));
    }
    if line.IsItem() {
      var list := ParseArray(lines, startIndex, indent);
      if list.Err? {
        return Err(list.error);
      }
      return Ok(Parsed(list.value.next, List(list.value.value)));
    }
    var mapping := ParseObject(lines, startIndex, indent, []);
    if mapping.Err? {
      return Err(mapping.error);
    }
    return Ok(Parsed(mapping.value.next, Record(mapping.value.value)));
  }

  // ---------------------------------------------------------------- documents

  function Chomp(line: string): string {
    if line != "" && line[|line| - 1] == '\r' then line[..|line| - 1] else line
  }

  /** `split(/\r?\n/)`. */
  function SplitLines(input: string): (lines: seq<string>)
    ensures lines != []
  {
    var end := IndexOf(input, '\n');
    if end == -1 then [input] else [Chomp(input[..end])] + SplitLines(input[end + 1..])
  }

  predicate IsBlankOrComment(line: string) {
    Trim(line) == "" || "#" <= TrimStart(line)
  }

  /** The lines that are neither blank nor comments, with their indentation. */
  function SignificantLines(raw: seq<string>): seq<Line> {
    if raw == [] then [] else
    var line := TrimEnd(raw[0]);
    var rest := SignificantLines(raw[1..]);
    if IsBlankOrComment(line) then rest
    else
      TrimStartShortens(line);
      [Line(|line| - |TrimStart(line)|, Trim(line))] + rest
  }

  function ParseYaml(input: string): Result<Value, Error> {
    var lines := SignificantLines(SplitLines(input));
    if lines == [] then Ok(Record([])) else
    var block :- BlockFrom(lines, 0, 0);
    Ok(block.value)
  }

  method ParseDocument(input: string) returns (r: Result<Value, Error>)
    ensures r == ParseYaml(input)
  {
    hide SplitLines, SignificantLines, BlockFrom;
    var lines := SignificantLines(SplitLines(input));
    if |lines| == 0 {
      return Ok(Record([]));
    }
    var block := ParseBlock(lines, 0, 0);
    if block.Err? {
      return Err(block.error);
    }
    return Ok(block.value.value);
  }

  // ------------------------------------------------------- where a block ends

  /**
   * A line closes the block of the given kind at `indent`: it is indented less,
   * or stands at the same column but is an entry of the other kind.
   */
  predicate Closes(line: Line, indent: nat, items: bool) {
    line.indent < indent || (line.indent == indent && line.IsItem() != items)
  }

  /** `next` is the first line at or after `start` that closes the block. */
  ghost predicate IsEndOfBlock(lines: seq<Line>, start: nat, next: nat, indent: nat, items: bool) {
    && start <= next <= |lines|
    && (forall j | start <= j < next :: !Closes(lines[j], indent, items))
    && (next < |lines| ==> Closes(lines[next], indent, items))
  }

  lemma {:induction false} ObjectExtent(lines: seq<Line>, index: nat, indent: nat, fields: seq<Field>)
    requires index <= |lines| && ObjectFrom(lines, index, indent, fields).Ok?
    ensures IsEndOfBlock(lines, index, ObjectFrom(lines, index, indent, fields).value.next, indent, false)
    decreases |lines| - index, 0
  {
    hide EntryOf, SetField, ArrayFrom, ItemAt;
    if index < |lines| && lines[index].indent == indent && !lines[index].IsItem() {
      match EntryOf(lines[index].content)
      case Malformed =>
      case Inline(key, value) =>
        ObjectExtent(lines, index + 1, indent, SetField(fields, key, value));
      case Opens(key) =>
        BlockExtent(lines, index + 1, indent + 2);
        var nested := BlockFrom(lines, index + 1, indent + 2).value;
        ObjectExtent(lines, nested.next, indent, SetField(fields, key, nested.value));
    }
  }

  lemma {:induction false} ItemExtent(lines: seq<Line>, index: nat, indent: nat)
    requires index < |lines| && lines[index].IsItem() && ItemAt(lines, index, indent).Ok?
    ensures forall j | index < j < ItemAt(lines, index, indent).value.next :: lines[j].indent > indent
    decreases |lines| - index, 0
  {
    hide EntryOf, SetField, ArrayFrom, ObjectFrom, BlockFrom, Trim;
    var remainder := Trim(lines[index].content[2..]);
    if remainder == "" {
      BlockExtent(lines, index + 1, indent + 2);
    } else {
      match EntryOf(remainder)
      case Malformed =>
      case Inline(key, value) =>
        ObjectExtent(lines, index + 1, indent + 2, [Field(key, value)]);
      case Opens(key) =>
        BlockExtent(lines, index + 1, indent + 4);
        var nested := BlockFrom(lines, index + 1, indent + 4).value;
        ObjectExtent(lines, nested.next, indent + 2, [Field(key, nested.value)]);
    }
  }

  lemma {:induction false} ArrayExtent(lines: seq<Line>, index: nat, indent: nat, items: seq<Value>)
    requires index <= |lines| && ArrayFrom(lines, index, indent, items).Ok?
    ensures IsEndOfBlock(lines, index, ArrayFrom(lines, index, indent, items).value.next, indent, true)
    decreases |lines| - index, 1
  {
    hide ItemAt;
    if index < |lines| && lines[index].indent == indent && lines[index].IsItem() {
      ItemExtent(lines, index, indent);
      var item := ItemAt(lines, index, indent).value;
      ArrayExtent(lines, item.next, indent, items + [item.value]);
    }
  }

  /**
   * A block that parses starts in its own column and stops exactly at the first
   * later line that closes it; indentation alone decides where that is.
   */
  lemma {:induction false} BlockExtent(lines: seq<Line>, start: nat, indent: nat)
    requires start <= |lines| && BlockFrom(lines, start, indent).Ok?
    ensures start < |lines| && lines[start].indent == indent
    ensures IsEndOfBlock(lines, start, BlockFrom(lines, start, indent).value.next, indent, lines[start].IsItem())
    decreases |lines| - start, 2
  {
    if lines[start].IsItem() {
      ArrayExtent(lines, start, indent, []);
    } else {
      ObjectExtent(lines, start, indent, []);
    }
  }

  /**
   * `parseYaml` ignores where its block stopped. A document that parses is read to its
   * last line exactly when no line in the first column is of the other kind than the first.
   */
  lemma {:induction false} WholeDocumentRead(lines: seq<Line>)
    requires lines != [] && BlockFrom(lines, 0, 0).Ok?
    ensures BlockFrom(lines, 0, 0).value.next == |lines|
       <==> forall j | 0 <= j < |lines| && lines[j].indent == 0 :: lines[j].IsItem() == lines[0].IsItem()
  {
    hide ObjectFrom, ArrayFrom;
    BlockExtent(lines, 0, 0);
  }

  /** Every line that reaches the parser is trimmed and not empty. */
  lemma {:induction false} SignificantLinesAreTrimmed(raw: seq<string>)
    ensures forall line | line in SignificantLines(raw) :: line.content != "" && Trimmed(line.content)
  {
    if raw != [] {
      TrimIsTrimmed(TrimEnd(raw[0]));
      SignificantLinesAreTrimmed(raw[1..]);
    }
  }

  /**
   * Hence an item always has text after its mark: the branch of `parseArray` for a bare
   * mark is never taken, and a line holding only `-` is refused as a mapping entry.
   */
  lemma NoBareItems(input: string)
    ensures forall line | line in SignificantLines(SplitLines(input)) && line.IsItem() :: Trim(line.content[2..]) != ""
  {
    hide SplitLines, SignificantLines;
    SignificantLinesAreTrimmed(SplitLines(input));
    forall line | line in SignificantLines(SplitLines(input)) && line.IsItem()
      ensures Trim(line.content[2..]) != ""
    {
      var s := line.content;
      assert !IsSpace(s[|s| - 1]) && s[|s| - 1] == s[2..][|s[2..]| - 1];
      VisibleEndSurvives(s[2..]);
    }
  }
}
