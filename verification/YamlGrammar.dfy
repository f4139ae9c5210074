/** The grammar of the block subset: which lines parse, and to which value, without a parser. */
module YamlGrammar {
  import opened Text
  import opened Wrappers
  import opened YamlParser

  // ------------------------------------------------------------------ syntax trees

  /** A block is a list of items or a mapping of entries, all in one column. */
  datatype Block = Items(items: seq<ItemTree>) | Entries(entries: seq<EntryTree>)

  /** The text of a line and the block below it, if it opens one. */
  datatype EntryTree = EntryTree(content: string, below: Option<Block>)

  /** An item may go on with further entries in the column of its text. */
  datatype ItemTree = ItemTree(content: string, below: Option<Block>, rest: seq<EntryTree>)

  function ItemText(content: string): string
    requires "- " <= content
  {
    Trim(content[2..])
  }

  ghost predicate FitsEntry(e: EntryTree)
    decreases e
  {
    && !("- " <= e.content)
    && match EntryOf(e.content)
       case Malformed => false
       case Inline(_, _) => e.below.None?
       case Opens(_) => e.below.Some? && Fits(e.below.value)
  }

  ghost predicate FitsItem(i: ItemTree)
    decreases i
  {
    && "- " <= i.content
    && if ItemText(i.content) == "" then i.below.Some? && Fits(i.below.value) && i.rest == []
       else
         match EntryOf(ItemText(i.content))
         case Malformed => i.below.None? && i.rest == []
         case Inline(_, _) => i.below.None? && forall e | e in i.rest :: FitsEntry(e)
         case Opens(_) => i.below.Some? && Fits(i.below.value) && forall e | e in i.rest :: FitsEntry(e)
  }

  /** The tree is one of the grammar. */
  ghost predicate Fits(b: Block)
    decreases b
  {
    match b
    case Items(items) => items != [] && forall i | i in items :: FitsItem(i)
    case Entries(entries) => entries != [] && forall e | e in entries :: FitsEntry(e)
  }

  ghost predicate FitAll(entries: seq<EntryTree>) {
    forall e | e in entries :: FitsEntry(e)
  }

  // ------------------------------------------------------------- the lines of a tree

  function EntryLines(e: EntryTree, indent: nat): seq<Line>
    decreases e
  {
    [Line(indent, e.content)] + if e.below.Some? then BlockLines(e.below.value, indent + 2) else []
  }

  function EntriesLines(entries: seq<EntryTree>, indent: nat): seq<Line>
    decreases entries
  {
    if entries == [] then [] else EntryLines(entries[0], indent) + EntriesLines(entries[1..], indent)
  }

  /** What a block below an item is indented by: two columns, or four below an entry on the item's line. */
  function ItemDepth(content: string): nat {
    if "- " <= content && ItemText(content) == "" then 2 else 4
  }

  function ItemLines(i: ItemTree, indent: nat): seq<Line>
    decreases i
  {
    [Line(indent, i.content)]
    + ((if i.below.Some? then BlockLines(i.below.value, indent + ItemDepth(i.content)) else [])
       + EntriesLines(i.rest, indent + 2))
  }

  function ItemsLines(items: seq<ItemTree>, indent: nat): seq<Line>
    decreases items
  {
    if items == [] then [] else ItemLines(items[0], indent) + ItemsLines(items[1..], indent)
  }

  function BlockLines(b: Block, indent: nat): seq<Line>
    decreases b
  {
    match b
    case Items(items) => ItemsLines(items, indent)
    case Entries(entries) => EntriesLines(entries, indent)
  }

  // ------------------------------------------------------------- the value of a tree

  function EntryKey(e: EntryTree): string {
    match EntryOf(e.content)
    case Malformed => ""
    case Inline(key, _) => key
    case Opens(key) => key
  }

  function EntryValue(e: EntryTree): Value
    decreases e, 0
  {
    match EntryOf(e.content)
    case Inline(_, value) => value
    case _ => if e.below.Some? then BlockValue(e.below.value) else Null
  }

  /** The fields of the entries, in order, put into the fields collected before. */
  function FieldsInto(fields: seq<Field>, entries: seq<EntryTree>): seq<Field>
    decreases entries, 0
  {
    if entries == [] then fields
    else FieldsInto(SetField(fields, EntryKey(entries[0]), EntryValue(entries[0])), entries[1..])
  }

  function ItemValue(i: ItemTree): Value
    decreases i, 0
  {
    var text := if "- " <= i.content then ItemText(i.content) else "";
    var below := if i.below.Some? then BlockValue(i.below.value) else Null;
    if text == "" then below else
    match EntryOf(text)
    case Malformed => ParseScalar(text)
    case Inline(key, value) => Record(FieldsInto([Field(key, value)], i.rest))
    case Opens(key) => Record(FieldsInto([Field(key, below)], i.rest))
  }

  function ItemValues(items: seq<ItemTree>): seq<Value>
    decreases items, 0
  {
    if items == [] then [] else [ItemValue(items[0])] + ItemValues(items[1..])
  }

  function BlockValue(b: Block): Value
    decreases b, 1
  {
    match b
    case Items(items) => List(ItemValues(items))
    case Entries(entries) => Record(FieldsInto([], entries))
  }

  // ----------------------------------------------------------------- where trees stand

  /** These lines stand in the text from `index` up to `next`. */
  ghost predicate StandAt(lines: seq<Line>, index: nat, next: nat, part: seq<Line>) {
    index + |part| == next <= |lines| && lines[index..next] == part
  }

  /** The line after a block, if any, closes it: it is further left, or in its column and of the other kind. */
  ghost predicate EndsAt(lines: seq<Line>, next: nat, indent: nat, items: bool) {
    next <= |lines| && (next < |lines| ==> Closes(lines[next], indent, items))
  }

  lemma StandSplit(lines: seq<Line>, index: nat, next: nat, a: seq<Line>, b: seq<Line>)
    ensures StandAt(lines, index, next, a + b) <==>
      StandAt(lines, index, index + |a|, a) && StandAt(lines, index + |a|, next, b)
  {
    if StandAt(lines, index, next, a + b) {
      assert lines[index..next][..|a|] == a && lines[index..next][|a|..] == b;
    }
  }

  lemma StandHead(lines: seq<Line>, index: nat, next: nat, head: Line)
    ensures StandAt(lines, index, next, [head]) <==> index < |lines| && next == index + 1 && lines[index] == head
  {
  }

  lemma StandNothing(lines: seq<Line>, index: nat, next: nat)
    ensures StandAt(lines, index, next, []) <==> index == next <= |lines|
  {
  }

  /** The line there, if any, is left of the column. */
  ghost predicate StopsAt(lines: seq<Line>, next: nat, column: nat) {
    next <= |lines| && (next < |lines| ==> lines[next].indent < column)
  }

  lemma StopsMeansEnds(lines: seq<Line>, next: nat, column: nat, indent: nat, items: bool)
    requires StopsAt(lines, next, column) && column <= indent
    ensures EndsAt(lines, next, indent, items)
  {
  }

  /** What follows an entry or an item in its block, or ends the block, is at most in its column. */
  lemma NextColumn(lines: seq<Line>, next: nat, end: nat, indent: nat, entries: seq<EntryTree>, items: seq<ItemTree>)
    ensures StandAt(lines, next, end, EntriesLines(entries, indent)) && EndsAt(lines, end, indent, false) ==>
      StopsAt(lines, next, indent + 1)
    ensures StandAt(lines, next, end, ItemsLines(items, indent)) && EndsAt(lines, end, indent, true) ==>
      StopsAt(lines, next, indent + 1)
  {
    FirstLine(entries, items, indent);
    StandFirst(lines, next, end, EntriesLines(entries, indent));
    StandFirst(lines, next, end, ItemsLines(items, indent));
    StandNothing(lines, next, end);
    hide EntriesLines, ItemsLines, StandAt;
  }

  lemma StandFirst(lines: seq<Line>, index: nat, next: nat, part: seq<Line>)
    ensures StandAt(lines, index, next, part) && part != [] ==> index < |lines| && lines[index] == part[0]
  {
    if StandAt(lines, index, next, part) && part != [] {
      assert lines[index] == lines[index..next][0];
    }
  }

  lemma FirstLine(entries: seq<EntryTree>, items: seq<ItemTree>, indent: nat)
    ensures if entries == [] then EntriesLines(entries, indent) == []
      else EntriesLines(entries, indent) != [] && EntriesLines(entries, indent)[0] == Line(indent, entries[0].content)
    ensures if items == [] then ItemsLines(items, indent) == []
      else ItemsLines(items, indent) != [] && ItemsLines(items, indent)[0] == Line(indent, items[0].content)
  {
    hide BlockLines, ItemDepth;
  }

  // ------------------------------------------------------- what fits is read as it should

  lemma ObjectStops(lines: seq<Line>, index: nat, indent: nat, fields: seq<Field>)
    requires EndsAt(lines, index, indent, false)
    ensures ObjectFrom(lines, index, indent, fields) == Ok(Parsed(index, fields))
  {
    hide EntryOf, SetField, BlockFrom;
  }

  lemma ArrayStops(lines: seq<Line>, index: nat, indent: nat, values: seq<Value>)
    requires EndsAt(lines, index, indent, true)
    ensures ArrayFrom(lines, index, indent, values) == Ok(Parsed(index, values))
  {
    hide ItemAt;
  }

  /** The first entry and the others. */
  lemma EntriesStep(entries: seq<EntryTree>, indent: nat, fields: seq<Field>)
    requires entries != []
    ensures FitAll(entries) <==> FitsEntry(entries[0]) && FitAll(entries[1..])
    ensures EntriesLines(entries, indent) == EntryLines(entries[0], indent) + EntriesLines(entries[1..], indent)
    ensures FieldsInto(fields, entries)
      == FieldsInto(SetField(fields, EntryKey(entries[0]), EntryValue(entries[0])), entries[1..])
  {
    hide FitsEntry, EntryLines, EntryValue, EntryKey, SetField;
    assert entries == [entries[0]] + entries[1..];
  }

  lemma ItemsStep(items: seq<ItemTree>, indent: nat)
    requires items != []
    ensures (forall i | i in items :: FitsItem(i)) <==> FitsItem(items[0]) && forall i | i in items[1..] :: FitsItem(i)
    ensures ItemsLines(items, indent) == ItemLines(items[0], indent) + ItemsLines(items[1..], indent)
    ensures ItemValues(items) == [ItemValue(items[0])] + ItemValues(items[1..])
  {
    hide FitsItem, ItemLines, ItemValue;
    assert items == [items[0]] + items[1..];
  }

  lemma {:induction false} ReadEntries(lines: seq<Line>, index: nat, next: nat, indent: nat, fields: seq<Field>,
                                       entries: seq<EntryTree>)
    requires FitAll(entries) && StandAt(lines, index, next, EntriesLines(entries, indent))
    requires EndsAt(lines, next, indent, false)
    ensures ObjectFrom(lines, index, indent, fields) == Ok(Parsed(next, FieldsInto(fields, entries)))
    decreases entries, 0
  {
    hide ObjectFrom, FitAll, FitsEntry, StandAt, EndsAt, StopsAt, EntryLines, EntryKey, EntryValue, SetField,
      EntriesLines, FieldsInto;
    if entries == [] {
      NoEntries(lines, index, indent, fields);
      StandNothing(lines, index, next);
      ObjectStops(lines, index, indent, fields);
    } else {
      var e, rest := entries[0], entries[1..];
      EntriesStep(entries, indent, fields);
      StandSplit(lines, index, next, EntryLines(e, indent), EntriesLines(rest, indent));
      var middle := index + |EntryLines(e, indent)|;
      NextColumn(lines, middle, next, indent, rest, []);
      ReadEntry(lines, index, middle, indent, fields, e);
      ReadEntries(lines, middle, next, indent, SetField(fields, EntryKey(e), EntryValue(e)), rest);
    }
  }

  lemma {:induction false} ReadEntry(lines: seq<Line>, index: nat, next: nat, indent: nat, fields: seq<Field>,
                                     e: EntryTree)
    requires FitsEntry(e) && StandAt(lines, index, next, EntryLines(e, indent)) && StopsAt(lines, next, indent + 1)
    ensures next <= |lines|
    ensures ObjectFrom(lines, index, indent, fields)
         == ObjectFrom(lines, next, indent, SetField(fields, EntryKey(e), EntryValue(e)))
    decreases e, 0
  {
    hide EntryOf, SetField, BlockFrom, BlockValue, BlockLines, Fits, StandAt;
    if e.below.Some? {
      StandSplit(lines, index, next, [Line(indent, e.content)], BlockLines(e.below.value, indent + 2));
      StandHead(lines, index, index + 1, Line(indent, e.content));
      StopsMeansEnds(lines, next, indent + 1, indent + 2, e.below.value.Items?);
      ReadBlock(lines, index + 1, next, indent + 2, e.below.value);
    } else {
      assert [Line(indent, e.content)] + [] == [Line(indent, e.content)];
      StandHead(lines, index, next, Line(indent, e.content));
    }
  }

  lemma {:induction false} ReadItem(lines: seq<Line>, index: nat, next: nat, indent: nat, i: ItemTree)
    requires FitsItem(i) && StandAt(lines, index, next, ItemLines(i, indent)) && StopsAt(lines, next, indent + 1)
    ensures index < |lines| && lines[index] == Line(indent, i.content) && lines[index].IsItem()
    ensures ItemAt(lines, index, indent) == Ok(Parsed(next, ItemValue(i)))
    decreases i, 0
  {
    hide EntryOf, Trim, SetField, BlockFrom, ObjectFrom, BlockValue, BlockLines, Fits, FitsEntry, StandAt,
      EntriesLines, FieldsInto, ParseScalar, StopsAt;
    ItemParts(lines, index, next, indent, i);
    var middle := index + 1 + if i.below.Some? then |BlockLines(i.below.value, indent + ItemDepth(i.content))| else 0;
    StopsMeansEnds(lines, next, indent + 1, indent + 2, false);
    BelowStops(lines, middle, next, indent, i);
    if i.below.Some? {
      var depth := indent + ItemDepth(i.content);
      StopsMeansEnds(lines, middle, depth, depth, i.below.value.Items?);
      ReadBlock(lines, index + 1, middle, depth, i.below.value);
    }
    if ItemText(i.content) != "" && !EntryOf(ItemText(i.content)).Malformed? {
      var first := if i.below.Some? then BlockValue(i.below.value) else Null;
      var value := if EntryOf(ItemText(i.content)).Inline? then EntryOf(ItemText(i.content)).value else first;
      ReadEntries(lines, middle, next, indent + 2, [Field(EntryOf(ItemText(i.content)).key, value)], i.rest);
    }
  }

  /** Where the parts of an item stand. */
  lemma ItemParts(lines: seq<Line>, index: nat, next: nat, indent: nat, i: ItemTree)
    ensures var depth := indent + ItemDepth(i.content);
      var block := if i.below.Some? then BlockLines(i.below.value, depth) else [];
      var middle := index + 1 + |block|;
      StandAt(lines, index, next, ItemLines(i, indent)) <==>
        && index < |lines| && lines[index] == Line(indent, i.content)
        && StandAt(lines, index + 1, middle, block)
        && StandAt(lines, middle, next, EntriesLines(i.rest, indent + 2))
  {
    hide BlockLines, EntriesLines, ItemDepth, StandAt;
    var depth := indent + ItemDepth(i.content);
    var block := if i.below.Some? then BlockLines(i.below.value, depth) else [];
    StandSplit(lines, index, next, [Line(indent, i.content)], block + EntriesLines(i.rest, indent + 2));
    StandSplit(lines, index + 1, next, block, EntriesLines(i.rest, indent + 2));
    StandHead(lines, index, index + 1, Line(indent, i.content));
  }

  /** The block below an item ends where the further entries begin, which are less indented, or the item ends. */
  lemma BelowStops(lines: seq<Line>, middle: nat, next: nat, indent: nat, i: ItemTree)
    requires FitsItem(i) && StopsAt(lines, next, indent + 1)
    requires StandAt(lines, middle, next, EntriesLines(i.rest, indent + 2))
    ensures i.below.Some? ==> StopsAt(lines, middle, indent + ItemDepth(i.content))
    ensures i.rest == [] ==> middle == next
  {
    hide EntryOf, Trim, BlockLines, Fits, FitsEntry;
    StandNothing(lines, middle, next);
    StopsMeansEnds(lines, next, indent + 1, indent + 2, false);
    NextColumn(lines, middle, next, indent + 2, i.rest, []);
  }

  lemma {:induction false} ReadItems(lines: seq<Line>, index: nat, next: nat, indent: nat, values: seq<Value>,
                                     items: seq<ItemTree>)
    requires forall i | i in items :: FitsItem(i)
    requires StandAt(lines, index, next, ItemsLines(items, indent)) && EndsAt(lines, next, indent, true)
    ensures ArrayFrom(lines, index, indent, values) == Ok(Parsed(next, values + ItemValues(items)))
    decreases items, 0
  {
    hide ArrayFrom, ItemAt, FitsItem, StandAt, EndsAt, ItemLines, ItemValue;
    if items == [] {
      StandNothing(lines, index, next);
      ArrayStops(lines, index, indent, values);
      assert values + [] == values;
    } else {
      var i, rest := items[0], items[1..];
      ItemsStep(items, indent);
      StandSplit(lines, index, next, ItemLines(i, indent), ItemsLines(rest, indent));
      var middle := index + |ItemLines(i, indent)|;
      NextColumn(lines, middle, next, indent, [], rest);
      ReadItem(lines, index, middle, indent, i);
      ArrayReads(lines, index, indent, values);
      ReadItems(lines, middle, next, indent, values + [ItemValue(i)], rest);
      assert values + [ItemValue(i)] + ItemValues(rest) == values + ([ItemValue(i)] + ItemValues(rest));
    }
  }

  lemma ArrayReads(lines: seq<Line>, index: nat, indent: nat, values: seq<Value>)
    requires index < |lines| && lines[index].indent == indent && lines[index].IsItem()
    requires ItemAt(lines, index, indent).Ok?
    ensures var item := ItemAt(lines, index, indent).value;
      ArrayFrom(lines, index, indent, values) == ArrayFrom(lines, item.next, indent, values + [item.value])
  {
    hide ItemAt;
  }

  /** A block of the grammar, in any text and before any line that closes it, is read to its end and to its value. */
  lemma {:induction false} ReadBlock(lines: seq<Line>, index: nat, next: nat, indent: nat, b: Block)
    requires Fits(b) && StandAt(lines, index, next, BlockLines(b, indent)) && EndsAt(lines, next, indent, b.Items?)
    ensures BlockFrom(lines, index, indent) == Ok(Parsed(next, BlockValue(b)))
    decreases b, 0
  {
    hide ObjectFrom, ArrayFrom, ItemsLines, EntriesLines, FitsItem, FitsEntry, StandAt, EndsAt, FieldsInto, ItemValues;
    BlockStarts(lines, index, next, indent, b);
    match b
    case Items(items) =>
      ReadItems(lines, index, next, indent, [], items);
      assert [] + ItemValues(items) == ItemValues(items);
    case Entries(entries) =>
      ReadEntries(lines, index, next, indent, [], entries);
  }

  lemma BlockStarts(lines: seq<Line>, index: nat, next: nat, indent: nat, b: Block)
    requires Fits(b) && StandAt(lines, index, next, BlockLines(b, indent))
    ensures index < |lines| && lines[index].indent == indent && lines[index].IsItem() == b.Items?
  {
    hide EntryOf, Trim;
    match b
    case Items(items) =>
      assert FitsItem(items[0]);
      FirstLine([], items, indent);
      StandFirst(lines, index, next, ItemsLines(items, indent));
    case Entries(entries) =>
      assert FitsEntry(entries[0]);
      FirstLine(entries, [], indent);
      StandFirst(lines, index, next, EntriesLines(entries, indent));
  }

  // ------------------------------------------------------------- what is read fits

  lemma {:induction false} FindEntries(lines: seq<Line>, index: nat, indent: nat, fields: seq<Field>)
    returns (entries: seq<EntryTree>)
    requires index <= |lines| && ObjectFrom(lines, index, indent, fields).Ok?
    ensures var p := ObjectFrom(lines, index, indent, fields).value;
      && FitAll(entries) && StandAt(lines, index, p.next, EntriesLines(entries, indent))
      && EndsAt(lines, p.next, indent, false) && p.value == FieldsInto(fields, entries)
      && (entries == [] ==> p.next == index)
    decreases |lines| - index, 0
  {
    hide EntryOf, SetField, BlockFrom, FieldsInto, EntriesLines, StandAt, FitsEntry, FitAll, EntryValue, EntryKey,
      EntryLines;
    if index == |lines| || lines[index].indent < indent || lines[index].IsItem() {
      entries := [];
      NoEntries(lines, index, indent, fields);
    } else {
      var e := EntryTree(lines[index].content, None);
      var next := index + 1;
      match EntryOf(lines[index].content) {
        case Malformed =>
        case Inline(key, value) =>
          LeafEntry(lines, index, indent);
        case Opens(key) =>
          var below := FindBlock(lines, index + 1, indent + 2);
          next := BlockFrom(lines, index + 1, indent + 2).value.next;
          e := EntryTree(lines[index].content, Some(below));
          OpenEntry(lines, index, next, indent, below);
      }
      var rest := FindEntries(lines, next, indent, SetField(fields, EntryKey(e), EntryValue(e)));
      entries := [e] + rest;
      EntriesStep(entries, indent, fields);
      StandSplit(lines, index, ObjectFrom(lines, index, indent, fields).value.next, EntryLines(e, indent),
          EntriesLines(rest, indent));
      StandLength(lines, index, next, EntryLines(e, indent));
    }
  }

  lemma StandLength(lines: seq<Line>, index: nat, next: nat, part: seq<Line>)
    requires StandAt(lines, index, next, part)
    ensures index + |part| == next
  {
  }

  lemma NoEntries(lines: seq<Line>, index: nat, indent: nat, fields: seq<Field>)
    ensures FitAll([]) && EntriesLines([], indent) == [] && FieldsInto(fields, []) == fields
    ensures ItemsLines([], indent) == [] && ItemValues([]) == []
    ensures index <= |lines| ==> StandAt(lines, index, index, [])
  {
  }

  lemma LeafEntry(lines: seq<Line>, index: nat, indent: nat)
    requires index < |lines| && lines[index].indent == indent && !lines[index].IsItem()
    requires EntryOf(lines[index].content).Inline?
    ensures var e, entry := EntryTree(lines[index].content, None), EntryOf(lines[index].content);
      && FitsEntry(e) && EntryKey(e) == entry.key && EntryValue(e) == entry.value
      && StandAt(lines, index, index + 1, EntryLines(e, indent))
  {
    hide EntryOf;
  }

  lemma OpenEntry(lines: seq<Line>, index: nat, next: nat, indent: nat, below: Block)
    requires index < |lines| && lines[index].indent == indent && !lines[index].IsItem()
    requires EntryOf(lines[index].content).Opens? && Fits(below)
    requires StandAt(lines, index + 1, next, BlockLines(below, indent + 2))
    ensures var e, entry := EntryTree(lines[index].content, Some(below)), EntryOf(lines[index].content);
      && FitsEntry(e) && EntryKey(e) == entry.key && EntryValue(e) == BlockValue(below)
      && StandAt(lines, index, next, EntryLines(e, indent))
  {
    hide EntryOf, BlockLines, Fits, BlockValue;
    StandSplit(lines, index, next, [lines[index]], BlockLines(below, indent + 2));
    StandHead(lines, index, index + 1, lines[index]);
  }

  lemma {:induction false} FindItem(lines: seq<Line>, index: nat, indent: nat) returns (i: ItemTree)
    requires index < |lines| && lines[index].IsItem() && lines[index].indent == indent
    requires ItemAt(lines, index, indent).Ok?
    ensures var p := ItemAt(lines, index, indent).value;
      FitsItem(i) && StandAt(lines, index, p.next, ItemLines(i, indent)) && p.value == ItemValue(i)
    decreases |lines| - index, 0
  {
    hide EntryOf, Trim, SetField, BlockFrom, ObjectFrom, BlockValue, BlockLines, Fits, FitsEntry, StandAt, ItemLines,
      EntriesLines, FieldsInto, ParseScalar;
    var content := lines[index].content;
    var text, next := ItemText(content), ItemAt(lines, index, indent).value.next;
    var below: Option<Block>, rest, middle := None, [], index + 1;
    if text == "" || EntryOf(text).Opens? {
      var depth := indent + ItemDepth(content);
      var block := FindBlock(lines, index + 1, depth);
      middle := BlockFrom(lines, index + 1, depth).value.next;
      below := Some(block);
      StandLength(lines, index + 1, middle, BlockLines(block, depth));
    } else {
      StandNothing(lines, index + 1, index + 1);
    }
    if text != "" && !EntryOf(text).Malformed? {
      var value := if EntryOf(text).Inline? then EntryOf(text).value else BlockValue(below.value);
      rest := FindEntries(lines, middle, indent + 2, [Field(EntryOf(text).key, value)]);
    } else {
      NoEntries(lines, middle, indent + 2, []);
    }
    i := ItemTree(content, below, rest);
    ItemParts(lines, index, next, indent, i);
    FitAllOf(rest);
  }

  lemma FitAllOf(entries: seq<EntryTree>)
    ensures FitAll(entries) <==> forall e | e in entries :: FitsEntry(e)
  {
  }

  lemma {:induction false} FindItems(lines: seq<Line>, index: nat, indent: nat, values: seq<Value>)
    returns (items: seq<ItemTree>)
    requires index <= |lines| && ArrayFrom(lines, index, indent, values).Ok?
    ensures var p := ArrayFrom(lines, index, indent, values).value;
      && (forall i | i in items :: FitsItem(i)) && StandAt(lines, index, p.next, ItemsLines(items, indent))
      && EndsAt(lines, p.next, indent, true) && p.value == values + ItemValues(items)
      && (items == [] ==> p.next == index)
    decreases |lines| - index, 1
  {
    hide ItemAt, ItemValues, ItemsLines, StandAt, FitsItem, ItemValue, ItemLines;
    if index == |lines| || lines[index].indent < indent || !lines[index].IsItem() {
      items := [];
      NoEntries(lines, index, indent, []);
      assert values + [] == values;
    } else {
      var p := ItemAt(lines, index, indent).value;
      var i := FindItem(lines, index, indent);
      var rest := FindItems(lines, p.next, indent, values + [p.value]);
      items := [i] + rest;
      ItemsStep(items, indent);
      StandLength(lines, index, p.next, ItemLines(i, indent));
      StandSplit(lines, index, ArrayFrom(lines, index, indent, values).value.next, ItemLines(i, indent),
          ItemsLines(rest, indent));
      assert values + [p.value] + ItemValues(rest) == values + ([p.value] + ItemValues(rest));
    }
  }

  /** Whatever parses is a block of the grammar, with the value that the grammar gives it. */
  lemma {:induction false} FindBlock(lines: seq<Line>, index: nat, indent: nat) returns (b: Block)
    requires index <= |lines| && BlockFrom(lines, index, indent).Ok?
    ensures var p := BlockFrom(lines, index, indent).value;
      && Fits(b) && StandAt(lines, index, p.next, BlockLines(b, indent)) && EndsAt(lines, p.next, indent, b.Items?)
      && p.value == BlockValue(b)
    decreases |lines| - index, 2
  {
    hide ObjectFrom, ArrayFrom, ItemsLines, EntriesLines, FitsItem, FitsEntry, StandAt, EndsAt, FieldsInto, ItemValues;
    if lines[index].IsItem() {
      var items := FindItems(lines, index, indent, []);
      b := Items(items);
      assert [] + ItemValues(items) == ItemValues(items);
    } else {
      var entries := FindEntries(lines, index, indent, []);
      b := Entries(entries);
    }
  }

  // ------------------------------------------------------------------- main results

  /** The block stands there, is followed by a line that closes it or by nothing, and means this value. */
  ghost predicate Spells(lines: seq<Line>, index: nat, next: nat, indent: nat, b: Block, v: Value) {
    && Fits(b) && StandAt(lines, index, next, BlockLines(b, indent)) && EndsAt(lines, next, indent, b.Items?)
    && BlockValue(b) == v
  }

  /**
   * Any lines parse as a block that ends at `next` and has this value exactly when they are the lines of a block of the
   * grammar with this value: the parser accepts nothing else, and refuses nothing of it.
   */
  lemma {:induction false} ParsesIffSpelled(lines: seq<Line>, index: nat, indent: nat, next: nat, v: Value)
    requires index <= |lines|
    ensures BlockFrom(lines, index, indent) == Ok(Parsed(next, v)) <==>
      exists b :: Spells(lines, index, next, indent, b, v)
  {
    hide BlockFrom, Fits, StandAt, EndsAt, BlockLines, BlockValue;
    if BlockFrom(lines, index, indent) == Ok(Parsed(next, v)) {
      var b := FindBlock(lines, index, indent);
      assert Spells(lines, index, next, indent, b, v);
    } else if b :| Spells(lines, index, next, indent, b, v) {
      ReadBlock(lines, index, next, indent, b);
    }
  }

  /** A text parses exactly when its significant lines are none or begin with a block in the first column. */
  lemma {:induction false} DocumentParsesIffSpelled(input: string, v: Value)
    ensures var lines := SignificantLines(SplitLines(input));
      ParseYaml(input) == Ok(v) <==>
        if lines == [] then v == Record([]) else exists b, next :: Spells(lines, 0, next, 0, b, v)
  {
    hide BlockFrom, SplitLines, SignificantLines, Spells;
    var lines := SignificantLines(SplitLines(input));
    if lines != [] && BlockFrom(lines, 0, 0).Ok? {
      ParsesIffSpelled(lines, 0, 0, BlockFrom(lines, 0, 0).value.next, v);
    }
    if b, next :| Spells(lines, 0, next, 0, b, v) {
      ParsesIffSpelled(lines, 0, 0, next, v);
    }
  }

  /** The value under a key, if it is there. */
  function FieldAt(fields: seq<Field>, key: string): Option<Value> {
    if fields == [] then None else if fields[0].key == key then Some(fields[0].value) else FieldAt(fields[1..], key)
  }

  /** A repeated key takes the later value and keeps its place; the values of other keys stay. */
  lemma {:induction false} SetFieldLaw(fields: seq<Field>, key: string, value: Value, other: string)
    ensures FieldAt(SetField(fields, key, value), other) == if other == key then Some(value) else FieldAt(fields, other)
    ensures FieldAt(fields, key).Some? ==> |SetField(fields, key, value)| == |fields|
    ensures FieldAt(fields, key).Some? ==>
      forall i | 0 <= i < |fields| :: SetField(fields, key, value)[i].key == fields[i].key
    ensures FieldAt(fields, key).None? ==> SetField(fields, key, value) == fields + [Field(key, value)]
  {
    if fields != [] {
      SetFieldLaw(fields[1..], key, value, other);
    }
  }
}
