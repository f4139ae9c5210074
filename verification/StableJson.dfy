/** Canonical serialisation of JSON values, and the equality it decides. */
module StableJson {

  /** A property of an object, in insertion order; keys of one object are distinct. */
  datatype Member = Member(key: string, value: Json)

  /** A finite number is held as the decimal text by which JavaScript prints it, which identifies it. */
  datatype Json =
    | Null
    | Bool(b: bool)
    | Num(text: string)
    | Str(s: string)
    | Arr(items: seq<Json>)
    | Obj(members: seq<Member>)

  predicate IsNumberChar(c: char) {
    '0' <= c <= '9' || c in {'-', '+', '.', 'e'}
  }

  predicate NumberText(text: string) {
    && text != ""
    && (text[0] == '-' || '0' <= text[0] <= '9')
    && forall c | c in text :: IsNumberChar(c)
  }

  predicate DistinctKeys(members: seq<Member>) {
    forall i, j | 0 <= i < j < |members| :: members[i].key != members[j].key
  }

  predicate WellFormed(v: Json) {
    match v
    case Num(text) => NumberText(text)
    case Arr(items) => forall item | item in items :: WellFormed(item)
    case Obj(members) => DistinctKeys(members) && forall m | m in members :: WellFormed(m.value)
    case _ => true
  }

  // ------------------------------------------------------------ key order

  /** `localeCompare(left, right) < 0` for distinct keys, as a parameter. */
  type KeyOrder = (string, string) -> bool

  ghost predicate TotalOrder(lt: KeyOrder) {
    && (forall a, b :: lt(a, b) ==> !lt(b, a))
    && (forall a, b :: a != b ==> lt(a, b) || lt(b, a))
    && (forall a, b, c :: lt(a, b) && lt(b, c) ==> lt(a, c))
  }

  function Insert(m: Member, sorted: seq<Member>, lt: KeyOrder): (r: seq<Member>)
    ensures multiset(r) == multiset(sorted) + multiset{m}
  {
    if sorted == [] then [m]
    else if lt(sorted[0].key, m.key) then
      assert sorted == [sorted[0]] + sorted[1..];
      [sorted[0]] + Insert(m, sorted[1..], lt)
    else [m] + sorted
  }

  function SortMembers(members: seq<Member>, lt: KeyOrder): (r: seq<Member>)
    ensures multiset(r) == multiset(members)
    ensures forall m :: m in r <==> m in members
    ensures |r| == |members|
  {
    if members == [] then [] else
    var r := Insert(members[0], SortMembers(members[1..], lt), lt);
    assert members == [members[0]] + members[1..];
    assert multiset(r) == multiset(members);
    assert forall m :: m in r <==> m in multiset(r);
    assert |multiset(r)| == |r| && |multiset(members)| == |members|;
    r
  }

  // ---------------------------------------------------------- serialisation

  function HexDigit(n: nat): char
    requires n < 16
  {
    if n < 10 then ('0' as int + n) as char else ('a' as int + n - 10) as char
  }

  /** How `JSON.stringify` writes one character of a string. */
  function Escape(c: char): string {
    match c
    case '"' => "\\\""
    case '\\' => "\\\\"
    case '\n' => "\\n"
    case '\r' => "\\r"
    case '\t' => "\\t"
    case '\U{08}' => "\\b"
    case '\U{0C}' => "\\f"
    case _ =>
      if c < ' ' then "\\u00" + [HexDigit(c as int / 16), HexDigit(c as int % 16)] else [c]
  }

  function EscapeAll(s: string): string {
    if s == "" then "" else Escape(s[0]) + EscapeAll(s[1..])
  }

  function Quote(s: string): string {
    "\"" + EscapeAll(s) + "\""
  }

  /** `parts.join(',')`. */
  function Join(parts: seq<string>): string {
    if parts == [] then ""
    else if |parts| == 1 then parts[0]
    else parts[0] + "," + Join(parts[1..])
  }

  function StableSerialize(v: Json, lt: KeyOrder): string {
    match v
    case Null => "null"
    case Bool(b) => if b then "true" else "false"
    case Num(text) => text
    case Str(s) => Quote(s)
    case Arr(items) =>
      "[" + Join(seq(|items|, i requires 0 <= i < |items| => StableSerialize(items[i], lt))) + "]"
    case Obj(members) =>
      var entries := SortMembers(members, lt);
      "{" + Join(seq(|entries|, i requires 0 <= i < |entries| =>
        assert entries[i] in members;
        Quote(entries[i].key) + ":" + StableSerialize(entries[i].value, lt))) + "}"
  }

  // ------------------------------------------------ equality up to key order

  ghost function Keys(members: seq<Member>): set<string> {
    set m | m in members :: m.key
  }

  /** Structural equality of JSON values, where the order of an object's properties does not matter. */
  ghost predicate Same(v: Json, w: Json) {
    match (v, w)
    case (Arr(a), Arr(b)) => |a| == |b| && forall i | 0 <= i < |a| :: Same(a[i], b[i])
    case (Obj(a), Obj(b)) =>
      Keys(a) == Keys(b) && forall m, n | m in a && n in b && m.key == n.key :: Same(m.value, n.value)
    case _ => v == w
  }

  // ----------------------------------------------------------------- sorting

  ghost predicate SortedBy(members: seq<Member>, lt: KeyOrder) {
    forall i, j | 0 <= i < j < |members| :: lt(members[i].key, members[j].key)
  }

  lemma {:induction false} InsertSorts(m: Member, sorted: seq<Member>, lt: KeyOrder)
    requires TotalOrder(lt) && SortedBy(sorted, lt) && forall n | n in sorted :: n.key != m.key
    ensures SortedBy(Insert(m, sorted, lt), lt)
  {
    if sorted != [] && lt(sorted[0].key, m.key) {
      InsertSorts(m, sorted[1..], lt);
      var rest := Insert(m, sorted[1..], lt);
      forall n | n in rest ensures lt(sorted[0].key, n.key) {
        assert n in multiset(rest);
      }
    }
  }

  lemma {:induction false} SortSorts(members: seq<Member>, lt: KeyOrder)
    requires TotalOrder(lt) && DistinctKeys(members)
    ensures SortedBy(SortMembers(members, lt), lt)
  {
    if members != [] {
      SortSorts(members[1..], lt);
      InsertSorts(members[0], SortMembers(members[1..], lt), lt);
    }
  }

  /** Two strictly sorted property lists over the same keys agree key by key. */
  lemma {:induction false} SortedKeysUnique(a: seq<Member>, b: seq<Member>, lt: KeyOrder)
    requires TotalOrder(lt) && SortedBy(a, lt) && SortedBy(b, lt) && Keys(a) == Keys(b)
    ensures |a| == |b| && forall i | 0 <= i < |a| :: a[i].key == b[i].key
  {
    EmptyKeys(a);
    EmptyKeys(b);
    if a != [] {
      SortedHead(a, lt);
      SortedHead(b, lt);
      SortedKeysUnique(a[1..], b[1..], lt);
    }
  }

  lemma EmptyKeys(a: seq<Member>)
    ensures Keys(a) == {} <==> a == []
  {
    if a != [] {
      assert a[0].key in Keys(a);
    }
  }

  lemma SortedHead(a: seq<Member>, lt: KeyOrder)
    requires a != [] && TotalOrder(lt) && SortedBy(a, lt)
    ensures forall k | k in Keys(a) :: k == a[0].key || lt(a[0].key, k)
    ensures a[0].key in Keys(a) && Keys(a[1..]) == Keys(a) - {a[0].key}
  {
    assert a == [a[0]] + a[1..];
  }

  lemma SortKeepsKeys(members: seq<Member>, lt: KeyOrder)
    ensures Keys(SortMembers(members, lt)) == Keys(members)
  {
  }

  // ------------------------------------------------- strings decode uniquely

  lemma EscapeUnique(c: char, d: char, r: string, u: string)
    requires Escape(c) + r == Escape(d) + u
    ensures c == d && r == u
  {
    var x, y := Escape(c) + r, Escape(d) + u;
    assert x[0] == y[0];
    if |Escape(c)| == 1 {
      assert r == x[1..] && u == y[1..];
    } else {
      assert x[1] == y[1];
      if |Escape(c)| == 2 {
        assert r == x[2..] && u == y[2..];
      } else {
        assert x[4] == y[4] && x[5] == y[5];
        assert r == x[6..] && u == y[6..];
      }
    }
  }

  /** The text that follows an opening quotation mark closes at once only for the empty string. */
  lemma EscapeAllLead(s: string, r: string)
    ensures var x := EscapeAll(s) + "\"" + r;
            x != "" && (x[0] == '"' <==> s == "")
            && (s != "" ==> x == Escape(s[0]) + (EscapeAll(s[1..]) + "\"" + r))
            && (s == "" ==> x[1..] == r)
  {
    if s == "" {
      assert EscapeAll(s) + "\"" + r == "\"" + r;
    } else {
      assert EscapeAll(s) + "\"" + r == Escape(s[0]) + (EscapeAll(s[1..]) + "\"" + r);
    }
  }

  lemma {:induction false} EscapeAllUnique(s: string, t: string, r: string, u: string)
    requires EscapeAll(s) + "\"" + r == EscapeAll(t) + "\"" + u
    ensures s == t && r == u
  {
    hide Escape, EscapeAll;
    EscapeAllLead(s, r);
    EscapeAllLead(t, u);
    if s != "" {
      EscapeUnique(s[0], t[0], EscapeAll(s[1..]) + "\"" + r, EscapeAll(t[1..]) + "\"" + u);
      EscapeAllUnique(s[1..], t[1..], r, u);
      assert s == [s[0]] + s[1..] && t == [t[0]] + t[1..];
    }
  }

  lemma QuoteUnique(s: string, t: string, r: string, u: string)
    requires Quote(s) + r == Quote(t) + u
    ensures s == t && r == u
  {
    hide EscapeAll;
    assert (Quote(s) + r)[1..] == EscapeAll(s) + "\"" + r;
    assert (Quote(t) + u)[1..] == EscapeAll(t) + "\"" + u;
    EscapeAllUnique(s, t, r, u);
  }

  // -------------------------------------------------- values decode uniquely

  function Texts(items: seq<Json>, lt: KeyOrder): seq<string> {
    seq(|items|, i requires 0 <= i < |items| => StableSerialize(items[i], lt))
  }

  function EntryText(m: Member, lt: KeyOrder): string {
    Quote(m.key) + ":" + StableSerialize(m.value, lt)
  }

  function EntryTexts(entries: seq<Member>, lt: KeyOrder): seq<string> {
    seq(|entries|, i requires 0 <= i < |entries| => EntryText(entries[i], lt))
  }

  lemma SerializeArr(items: seq<Json>, lt: KeyOrder)
    ensures StableSerialize(Arr(items), lt) == "[" + Join(Texts(items, lt)) + "]"
  {
    assert Texts(items, lt) == seq(|items|, i requires 0 <= i < |items| => StableSerialize(items[i], lt));
  }

  lemma SerializeObj(members: seq<Member>, lt: KeyOrder)
    ensures StableSerialize(Obj(members), lt) == "{" + Join(EntryTexts(SortMembers(members, lt), lt)) + "}"
  {
    var v, entries := Obj(members), SortMembers(members, lt);
    var texts := seq(|entries|, i requires 0 <= i < |entries| =>
      assert entries[i] in members;
      Quote(entries[i].key) + ":" + StableSerialize(entries[i].value, lt));
    assert EntryTexts(entries, lt) == texts;
  }

  /** A text that may follow a value inside a serialisation. */
  predicate Follows(r: string) {
    r == "" || r[0] in {',', ']', '}'}
  }

  lemma Lead(v: Json, lt: KeyOrder)
    requires WellFormed(v)
    ensures var t := StableSerialize(v, lt);
            t != "" && match v
              case Null => t[0] == 'n'
              case Bool(b) => t[0] == if b then 't' else 'f'
              case Num(_) => t[0] == '-' || '0' <= t[0] <= '9'
              case Str(_) => t[0] == '"'
              case Arr(_) => t[0] == '['
              case Obj(_) => t[0] == '{'
  {
  }

  /** A number ends where the first other character stands. */
  lemma NumberEnds(s: string, r: string, x: string)
    requires NumberText(s) && Follows(r) && x == s + r
    ensures x[..|s|] == s && x[|s|..] == r
    ensures forall i | 0 <= i < |s| :: IsNumberChar(x[i])
    ensures |s| < |x| ==> !IsNumberChar(x[|s|])
  {
    forall i | 0 <= i < |s| ensures IsNumberChar(x[i]) {
      assert s[i] in s;
    }
  }

  lemma NumberUnique(s: string, t: string, r: string, u: string)
    requires NumberText(s) && NumberText(t) && Follows(r) && Follows(u) && s + r == t + u
    ensures s == t && r == u
  {
    hide NumberText, IsNumberChar;
    NumberEnds(s, r, s + r);
    NumberEnds(t, u, s + r);
    assert |s| == |t|;
  }

  lemma JoinCons(parts: seq<string>)
    requires parts != []
    ensures Join(parts) == if |parts| == 1 then parts[0] else parts[0] + "," + Join(parts[1..])
  {
  }

  /** `Join(parts) + close + r`, seen from its first part. */
  lemma JoinHead(parts: seq<string>, close: string, r: string)
    ensures Join(parts) + close + r ==
      if parts == [] then close + r
      else parts[0] + if |parts| == 1 then close + r else "," + (Join(parts[1..]) + close + r)
  {
    if parts == [] {
      assert Join(parts) == "";
      assert "" + close == close;
    } else {
      JoinCons(parts);
      hide Join;
      if |parts| == 1 {
        Assoc(parts[0], close, r);
      } else {
        var rest := Join(parts[1..]);
        Assoc(parts[0] + "," + rest, close, r);
        Assoc(parts[0] + ",", rest, close + r);
        Assoc(parts[0], ",", rest + (close + r));
        Assoc(rest, close, r);
      }
    }
  }

  lemma Assoc(a: string, b: string, c: string)
    ensures a + b + c == a + (b + c)
  {
  }

  lemma TextsTail(items: seq<Json>, entries: seq<Member>, lt: KeyOrder)
    ensures items != [] ==> Texts(items, lt)[1..] == Texts(items[1..], lt)
    ensures entries != [] ==> EntryTexts(entries, lt)[1..] == EntryTexts(entries[1..], lt)
  {
  }

  /** The text of a list closes at once only when the list is empty. */
  lemma ItemsLead(a: seq<Json>, r: string, lt: KeyOrder)
    requires forall x | x in a :: WellFormed(x)
    ensures var x := Join(Texts(a, lt)) + "]" + r;
            x != "" && (x[0] == ']' <==> a == [])
            && (a == [] ==> x[1..] == r)
            && (a != [] ==> x == StableSerialize(a[0], lt) + ItemsRest(a, r, lt))
  {
    JoinHead(Texts(a, lt), "]", r);
    if a != [] {
      assert a[0] in a;
      Lead(a[0], lt);
      TextsTail(a, [], lt);
    }
  }

  function ItemsRest(a: seq<Json>, r: string, lt: KeyOrder): string
    requires a != []
  {
    if |a| == 1 then "]" + r else "," + (Join(Texts(a[1..], lt)) + "]" + r)
  }

  lemma ItemsRestUnique(a: seq<Json>, b: seq<Json>, r: string, u: string, lt: KeyOrder)
    requires a != [] && b != [] && ItemsRest(a, r, lt) == ItemsRest(b, u, lt)
    ensures |a| == 1 <==> |b| == 1
    ensures if |a| == 1 then r == u else Join(Texts(a[1..], lt)) + "]" + r == Join(Texts(b[1..], lt)) + "]" + u
  {
    hide Join;
    var x, y := ItemsRest(a, r, lt), ItemsRest(b, u, lt);
    assert x[0] == y[0] && x[1..] == y[1..];
    assert |a| == 1 ==> x[1..] == r;
    assert |b| == 1 ==> y[1..] == u;
  }

  lemma {:induction false} DecodeItems(bound: Json, a: seq<Json>, b: seq<Json>, r: string, u: string, lt: KeyOrder)
    requires TotalOrder(lt) && forall x | x in a :: x < bound
    requires (forall x | x in a :: WellFormed(x)) && (forall x | x in b :: WellFormed(x))
    requires Join(Texts(a, lt)) + "]" + r == Join(Texts(b, lt)) + "]" + u
    ensures Same(Arr(a), Arr(b)) && r == u
    decreases bound, 0, |a|
  {
    hide Join, Same, StableSerialize, WellFormed, ItemsRest, Texts, TotalOrder;
    ItemsLead(a, r, lt);
    ItemsLead(b, u, lt);
    SameArr(a, b);
    if a != [] {
      assert a[0] in a && b[0] in b;
      assert Follows(ItemsRest(a, r, lt))
        && Follows(ItemsRest(b, u, lt)) by { RestFollows(a, r, lt); RestFollows(b, u, lt); }
      Decode(a[0], b[0], ItemsRest(a, r, lt), ItemsRest(b, u, lt), lt);
      ItemsRestUnique(a, b, r, u, lt);
      if |a| > 1 {
        assert forall x | x in a[1..] :: x in a;
        assert forall x | x in b[1..] :: x in b;
        DecodeItems(bound, a[1..], b[1..], r, u, lt);
        SameArr(a[1..], b[1..]);
      }
    }
  }

  lemma RestFollows(a: seq<Json>, r: string, lt: KeyOrder)
    requires a != []
    ensures Follows(ItemsRest(a, r, lt))
  {
  }

  lemma SameArr(a: seq<Json>, b: seq<Json>)
    ensures Same(Arr(a), Arr(b)) <==> |a| == |b| && forall i | 0 <= i < |a| :: Same(a[i], b[i])
  {
  }

  function EntriesRest(a: seq<Member>, r: string, lt: KeyOrder): (t: string)
    requires a != []
    ensures Follows(t)
  {
    if |a| == 1 then "}" + r else "," + (Join(EntryTexts(a[1..], lt)) + "}" + r)
  }

  lemma EntriesLead(a: seq<Member>, r: string, lt: KeyOrder)
    ensures var x := Join(EntryTexts(a, lt)) + "}" + r;
            x != "" && (x[0] == '}' <==> a == [])
            && (a == [] ==> x[1..] == r)
            && (a != [] ==> x == EntryText(a[0], lt) + EntriesRest(a, r, lt))
  {
    JoinHead(EntryTexts(a, lt), "}", r);
    if a != [] {
      EntryLead(a[0], lt);
      TextsTail([], a, lt);
    }
  }

  lemma EntriesRestUnique(a: seq<Member>, b: seq<Member>, r: string, u: string, lt: KeyOrder)
    requires a != [] && b != [] && EntriesRest(a, r, lt) == EntriesRest(b, u, lt)
    ensures |a| == 1 <==> |b| == 1
    ensures if |a| == 1 then r == u
            else Join(EntryTexts(a[1..], lt)) + "}" + r == Join(EntryTexts(b[1..], lt)) + "}" + u
  {
    hide Join;
    var x, y := EntriesRest(a, r, lt), EntriesRest(b, u, lt);
    assert x[0] == y[0] && x[1..] == y[1..];
    assert |a| == 1 ==> x[1..] == r;
    assert |b| == 1 ==> y[1..] == u;
  }

  lemma {:induction false} DecodeEntries(
      bound: Json, a: seq<Member>, b: seq<Member>, r: string, u: string, lt: KeyOrder)
    requires TotalOrder(lt) && forall m | m in a :: m.value < bound
    requires (forall m | m in a :: WellFormed(m.value)) && (forall m | m in b :: WellFormed(m.value))
    requires Join(EntryTexts(a, lt)) + "}" + r == Join(EntryTexts(b, lt)) + "}" + u
    ensures |a| == |b| && r == u
    ensures forall i | 0 <= i < |a| :: a[i].key == b[i].key && Same(a[i].value, b[i].value)
    decreases bound, 0, |a|
  {
    hide Join, Same, StableSerialize, WellFormed, EntryText, EntriesRest, EntryTexts, TotalOrder;
    EntriesLead(a, r, lt);
    EntriesLead(b, u, lt);
    if a != [] {
      assert a[0] in a && b[0] in b;
      EntrySplit(a[0], b[0], EntriesRest(a, r, lt), EntriesRest(b, u, lt), lt);
      Decode(a[0].value, b[0].value, EntriesRest(a, r, lt), EntriesRest(b, u, lt), lt);
      EntriesRestUnique(a, b, r, u, lt);
      if |a| > 1 {
        TailWithin(a);
        TailWithin(b);
        DecodeEntries(bound, a[1..], b[1..], r, u, lt);
      }
    }
  }

  lemma TailWithin(a: seq<Member>)
    requires a != []
    ensures forall m | m in a[1..] :: m in a
  {
  }

  lemma EntryLead(m: Member, lt: KeyOrder)
    ensures EntryText(m, lt) != "" && EntryText(m, lt)[0] == '"'
  {
  }

  lemma EntrySplit(m: Member, n: Member, x: string, y: string, lt: KeyOrder)
    requires EntryText(m, lt) + x == EntryText(n, lt) + y
    ensures m.key == n.key
    ensures StableSerialize(m.value, lt) + x == StableSerialize(n.value, lt) + y
  {
    hide StableSerialize, Quote;
    var p, q := StableSerialize(m.value, lt) + x, StableSerialize(n.value, lt) + y;
    assert EntryText(m, lt) + x == Quote(m.key) + (":" + p);
    assert EntryText(n, lt) + y == Quote(n.key) + (":" + q);
    QuoteUnique(m.key, n.key, ":" + p, ":" + q);
    assert p == (":" + p)[1..] && q == (":" + q)[1..];
  }

  /** No serialisation is a proper prefix of another one, read in context; equal texts come from equal values. */
  lemma {:induction false} Decode(v: Json, w: Json, r: string, u: string, lt: KeyOrder)
    requires TotalOrder(lt) && WellFormed(v) && WellFormed(w) && Follows(r) && Follows(u)
    requires StableSerialize(v, lt) + r == StableSerialize(w, lt) + u
    ensures Same(v, w) && r == u
    decreases v, 1, 0
  {
    Lead(v, lt);
    Lead(w, lt);
    TextsOf(v, r, lt);
    TextsOf(w, u, lt);
    hide StableSerialize, Join, EscapeAll, WellFormed, Same, NumberText, Texts, EntryTexts;
    WellFormedParts(v);
    WellFormedParts(w);
    var x, y := StableSerialize(v, lt) + r, StableSerialize(w, lt) + u;
    assert x[0] == y[0] && x[0] == StableSerialize(v, lt)[0] && y[0] == StableSerialize(w, lt)[0];
    match v {
      case Null =>
        SameFlat(v, w);
      case Bool(b) =>
        SameFlat(v, w);
      case Num(s) =>
        NumberUnique(s, w.text, r, u);
        SameFlat(v, w);
      case Str(s) =>
        QuoteUnique(s, w.s, r, u);
        SameFlat(v, w);
      case Arr(a) =>
        DecodeItems(v, a, w.items, r, u, lt);
      case Obj(a) =>
        var p, q := SortMembers(a, lt), SortMembers(w.members, lt);
        DecodeEntries(v, p, q, r, u, lt);
        SameSorted(a, w.members, lt);
    }
  }

  lemma WellFormedParts(v: Json)
    requires WellFormed(v)
    ensures match v
      case Num(text) => NumberText(text)
      case Arr(items) => forall item | item in items :: WellFormed(item)
      case Obj(members) => DistinctKeys(members) && forall m | m in members :: WellFormed(m.value)
      case _ => true
  {
  }

  lemma SameFlat(v: Json, w: Json)
    requires v == w && !v.Arr? && !v.Obj?
    ensures Same(v, w)
  {
  }

  /** What a serialisation in context consists of. */
  lemma TextsOf(v: Json, r: string, lt: KeyOrder)
    ensures var x := StableSerialize(v, lt) + r;
            match v
            case Null => x[..4] == "null" && x[4..] == r
            case Bool(b) => if b then x[4..] == r else x[5..] == r
            case Num(text) => x == text + r
            case Str(s) => x == Quote(s) + r
            case Arr(items) => x[1..] == Join(Texts(items, lt)) + "]" + r
            case Obj(members) => x[1..] == Join(EntryTexts(SortMembers(members, lt), lt)) + "}" + r
  {
    hide Join, Quote;
    match v
    case Null =>
    case Bool(b) =>
    case Num(_) =>
    case Str(_) =>
    case Arr(items) =>
      SerializeArr(items, lt);
      hide StableSerialize;
      var t := Join(Texts(items, lt));
      assert ("[" + t + "]" + r)[1..] == t + "]" + r;
    case Obj(members) =>
      SerializeObj(members, lt);
      hide StableSerialize;
      var t := Join(EntryTexts(SortMembers(members, lt), lt));
      assert ("{" + t + "}" + r)[1..] == t + "}" + r;
  }

  lemma SameObj(a: seq<Member>, b: seq<Member>)
    ensures Same(Obj(a), Obj(b)) <==>
      Keys(a) == Keys(b) && forall m, n | m in a && n in b && m.key == n.key :: Same(m.value, n.value)
  {
  }

  lemma SameSorted(a: seq<Member>, b: seq<Member>, lt: KeyOrder)
    requires DistinctKeys(b)
    requires var p, q := SortMembers(a, lt), SortMembers(b, lt);
             |p| == |q| && forall i | 0 <= i < |p| :: p[i].key == q[i].key && Same(p[i].value, q[i].value)
    ensures Same(Obj(a), Obj(b))
  {
    hide Same, Keys, SortMembers;
    var p, q := SortMembers(a, lt), SortMembers(b, lt);
    KeysPointwise(p, q);
    KeysPointwise(q, p);
    SortKeepsKeys(a, lt);
    SortKeepsKeys(b, lt);
    forall m, n | m in a && n in b && m.key == n.key ensures Same(m.value, n.value) {
      var i :| 0 <= i < |p| && p[i] == m;
      assert q[i] in b;
      KeyIdentifies(b, q[i], n);
    }
    SameObj(a, b);
  }

  /** Objects that list the same keys in the same order are the same exactly when their values are. */
  lemma SamePointwise(a: seq<Member>, b: seq<Member>)
    requires DistinctKeys(b) && |a| == |b| && forall i | 0 <= i < |a| :: a[i].key == b[i].key
    ensures Same(Obj(a), Obj(b)) <==> forall i | 0 <= i < |a| :: Same(a[i].value, b[i].value)
  {
    hide Same, Keys;
    SameObj(a, b);
    KeysPointwise(a, b);
    KeysPointwise(b, a);
    if forall i | 0 <= i < |a| :: Same(a[i].value, b[i].value) {
      forall m, n | m in a && n in b && m.key == n.key ensures Same(m.value, n.value) {
        var i :| 0 <= i < |a| && a[i] == m;
        KeyIdentifies(b, b[i], n);
      }
    }
    if Same(Obj(a), Obj(b)) {
      forall i | 0 <= i < |a| ensures Same(a[i].value, b[i].value) {
        assert a[i] in a && b[i] in b;
      }
    }
  }

  lemma KeyIdentifies(b: seq<Member>, m: Member, n: Member)
    requires DistinctKeys(b) && m in b && n in b && m.key == n.key
    ensures m == n
  {
  }

  lemma KeysPointwise(p: seq<Member>, q: seq<Member>)
    requires |p| == |q| && forall i | 0 <= i < |p| :: p[i].key == q[i].key
    ensures Keys(p) <= Keys(q)
  {
    forall k | k in Keys(p) ensures k in Keys(q) {
      var i :| 0 <= i < |p| && p[i].key == k;
      assert q[i] in q;
    }
  }

  lemma {:induction false} SameSerialize(v: Json, w: Json, lt: KeyOrder)
    requires TotalOrder(lt) && WellFormed(v) && WellFormed(w) && Same(v, w)
    ensures StableSerialize(v, lt) == StableSerialize(w, lt)
  {
    hide StableSerialize, Join, SortMembers, Keys;
    match v
    case Arr(a) =>
      SerializeArr(a, lt);
      SerializeArr(w.items, lt);
      forall i | 0 <= i < |a| ensures StableSerialize(a[i], lt) == StableSerialize(w.items[i], lt) {
        SameSerialize(a[i], w.items[i], lt);
      }
      assert Texts(a, lt) == Texts(w.items, lt);
    case Obj(a) =>
      var b := w.members;
      SerializeObj(a, lt);
      SerializeObj(b, lt);
      SameObj(a, b);
      SortedPairs(a, b, lt);
      var p, q := SortMembers(a, lt), SortMembers(b, lt);
      forall i | 0 <= i < |p| ensures EntryText(p[i], lt) == EntryText(q[i], lt) {
        SameSerialize(p[i].value, q[i].value, lt);
      }
      assert EntryTexts(p, lt) == EntryTexts(q, lt);
    case _ =>
  }

  lemma SortedPairs(a: seq<Member>, b: seq<Member>, lt: KeyOrder)
    requires TotalOrder(lt) && DistinctKeys(a) && DistinctKeys(b) && Keys(a) == Keys(b)
    ensures var p, q := SortMembers(a, lt), SortMembers(b, lt);
            |p| == |q| && forall i | 0 <= i < |p| :: p[i] in a && q[i] in b && p[i].key == q[i].key
  {
    hide SortMembers, Keys;
    var p, q := SortMembers(a, lt), SortMembers(b, lt);
    SortSorts(a, lt);
    SortSorts(b, lt);
    SortKeepsKeys(a, lt);
    SortKeepsKeys(b, lt);
    SortedKeysUnique(p, q, lt);
    forall i | 0 <= i < |p| ensures p[i] in a && q[i] in b {
      assert p[i] in p && q[i] in q;
    }
  }

  /** Two values serialise to the same text exactly when they are equal up to the order of object keys. */
  lemma {:induction false} SerializeDecidesSame(v: Json, w: Json, lt: KeyOrder)
    requires TotalOrder(lt) && WellFormed(v) && WellFormed(w)
    ensures StableSerialize(v, lt) == StableSerialize(w, lt) <==> Same(v, w)
  {
    hide StableSerialize, Same;
    if StableSerialize(v, lt) == StableSerialize(w, lt) {
      Decode(v, w, "", "", lt);
    }
    if Same(v, w) {
      SameSerialize(v, w, lt);
    }
  }
}
