/** The text tells what it shows: payloads whose data differ in one value that is shown give different
    texts, as long as nothing is cut. */
module ResponseTelling {
  import opened Json
  import opened PyText
  import opened ResponseFormatting
  import opened ResponseText
  import opened ResponseContent

  /** The lines around a value and the parts of its own line, whatever the value is. */
  datatype Context = Context(before: seq<string>, pre: string, post: string, after: seq<string>) {
    function Fill(s: string): seq<string> {
      before + [pre + s + post] + after
    }

    function Between(first: seq<string>, last: seq<string>): Context {
      Context(first + before, pre, post, after + last)
    }
  }

  lemma FillBetween(c: Context, first: seq<string>, last: seq<string>, s: string)
    ensures c.Between(first, last).Fill(s) == first + c.Fill(s) + last
  {
    assert (first + c.before) + [c.pre + s + c.post] + (c.after + last) == first + (c.before + [c.pre + s + c.post] + c.after) + last;
  }

  // ---- Places of values ----

  /** The value with another one put in its place at the end of the path. */
  function PutAt(v: Json, path: seq<nat>, x: Json): Json
    decreases |path|
  {
    if path == [] then x
    else
      var i := path[0];
      match v
      case Obj(fields) => if i < |fields| then Obj(fields[i := Field(fields[i].key, PutAt(fields[i].value, path[1..], x))]) else v
      case Arr(items) => if i < |items| then Arr(items[i := PutAt(items[i], path[1..], x)]) else v
      case _ => v
  }

  /** The path leads to a shown scalar: an item of the list, or an entry of a dict in it. */
  predicate InList(tb: Tables, items: seq<Json>, path: seq<nat>) {
    && path != [] && path[0] < |items| && path[0] < MAX_ITEMS
    && match items[path[0]]
       case Obj(fields) => |path| == 2 && path[1] < |fields| && !tb.isSensitive(fields[path[1]].key) && IsScalar(fields[path[1]].value)
       case Arr(_) => false
       case _ => |path| == 1
  }

  /** Along keys that are not sensitive, and not too deep. */
  predicate InDict(tb: Tables, fields: seq<Field>, path: seq<nat>, depth: nat)
    decreases |path|
  {
    && depth < MAX_DEPTH && path != [] && path[0] < |fields| && !tb.isSensitive(fields[path[0]].key)
    && match fields[path[0]].value
       case Obj(nested) => InDict(tb, nested, path[1..], depth + 1)
       case Arr(items) => depth + 1 < MAX_DEPTH && InList(tb, items, path[1..])
       case _ => |path| == 1
  }

  predicate IsFirst(fields: seq<Field>, i: nat, key: string) {
    i < |fields| && fields[i].key == key && forall j | 0 <= j < i :: fields[j].key != key
  }

  /** The value of one of the first 32 items of `fields`, whose names are not sensitive. */
  predicate InItems(tb: Tables, items: seq<Json>, path: seq<nat>) {
    && |path| == 2 && path[0] < |items| && path[0] < MAX_LINES && items[path[0]].Obj?
    && !IsSensitiveItem(tb, items[path[0]].fields) && IsFirst(items[path[0]].fields, path[1], "value")
  }

  /** The path leads to a scalar that is shown. */
  predicate IsShownAt(tb: Tables, data: Json, path: seq<nat>) {
    match data
    case Obj(fields) =>
      if IsText(fields) then false
      else if ShowsItems(fields) then
        path != [] && IsFirst(fields, path[0], "fields") && fields[path[0]].value.Arr?
        && InItems(tb, fields[path[0]].value.items, path[1..])
      else InDict(tb, fields, path, 0) && (|path| == 1 ==> fields[path[0]].key != "text")
    case Arr(items) => InList(tb, items, path)
    case _ => path == []
  }

  // ---- Joined parts ----

  function Ahead(separator: string, parts: seq<string>): string {
    if parts == [] then "" else Join(separator, parts) + separator
  }

  function Behind(separator: string, parts: seq<string>): string {
    if parts == [] then "" else separator + Join(separator, parts)
  }

  lemma {:induction false} JoinAround(separator: string, a: seq<string>, x: string, b: seq<string>)
    ensures Join(separator, a + [x] + b) == Ahead(separator, a) + x + Behind(separator, b)
  {
    hide Join;
    if a == [] {
      assert a + [x] + b == [x] + b && ([x] + b)[1..] == b;
      JoinCons(separator, [x] + b);
    } else {
      JoinAround(separator, a[1..], x, b);
      assert (a + [x] + b)[1..] == a[1..] + [x] + b;
      JoinCons(separator, a + [x] + b);
      JoinCons(separator, a);
      AheadCons(separator, a);
      Reassociate(a[0] + separator, Ahead(separator, a[1..]), x, Behind(separator, b));
    }
  }

  lemma JoinCons(separator: string, a: seq<string>)
    requires a != []
    ensures Join(separator, a) == if |a| == 1 then a[0] else a[0] + separator + Join(separator, a[1..])
  {
  }

  lemma AheadCons(separator: string, a: seq<string>)
    requires a != []
    ensures Ahead(separator, a) == a[0] + separator + Ahead(separator, a[1..])
  {
    if |a| == 1 {
      assert a[1..] == [] && a[0] + separator + "" == a[0] + separator;
    } else {
      assert a[0] + separator + Join(separator, a[1..]) + separator == a[0] + separator + (Join(separator, a[1..]) + separator);
    }
  }

  lemma Reassociate<T>(a: seq<T>, b: seq<T>, c: seq<T>, d: seq<T>)
    ensures a + (b + c + d) == (a + b) + c + d
  {
  }

  lemma ConsAppend<T>(a: seq<T>, b: seq<T>)
    requires a != []
    ensures a + b == [a[0]] + (a[1..] + b) && a == [a[0]] + a[1..]
  {
  }

  lemma Regroup<T>(a: seq<T>, b: seq<T>, c: seq<T>)
    ensures a + (b + c) == a + b + c
  {
  }

  // ---- Lists ----

  function ItemContext(tb: Tables, item: Json, number: nat, path: seq<nat>): Context
    requires item.Obj? ==> path != [] && path[0] < |item.fields|
  {
    var start := tb.show(Int(number)) + ". ";
    if item.Obj? then
      var fields, j := item.fields, path[0];
      Context([], start + Ahead("，", Pairs(tb, fields[..j])) + KeyLabel(tb, fields[j].key) + "=",
              Behind("，", Pairs(tb, fields[j + 1..])), [])
    else Context([], start, "", [])
  }

  function ListContext(tb: Tables, items: seq<Json>, path: seq<nat>, caption: string): Context
    requires InList(tb, items, path)
  {
    var i, shown := path[0], AtMost(items, MAX_ITEMS);
    ItemContext(tb, shown[i], i + 1, path[1..]).Between(
      (if caption != "" then [SafeLabel(tb, caption) + "："] else []) + ItemsLines(tb, shown[..i], 1),
      ItemsLines(tb, shown[i + 1..], i + 2))
  }

  lemma PairsStep(tb: Tables, field: Field, rest: seq<Field>)
    ensures Pairs(tb, [field] + rest) == Pairs(tb, [field]) + Pairs(tb, rest)
  {
    hide ValueLine, KeyLabel;
    assert ([field] + rest)[1..] == rest && [field][1..] == [];
    AppendNothing(if tb.isSensitive(field.key) then [] else ValueLine(tb, KeyLabel(tb, field.key) + "=", field.value));
  }

  lemma {:induction false} PairsTogether(tb: Tables, a: seq<Field>, b: seq<Field>)
    ensures Pairs(tb, a + b) == Pairs(tb, a) + Pairs(tb, b)
  {
    if a == [] {
      assert a + b == b;
      AppendNothing(Pairs(tb, b));
    } else {
      hide Pairs;
      PairsTogether(tb, a[1..], b);
      ConsAppend(a, b);
      PairsStep(tb, a[0], a[1..] + b);
      PairsStep(tb, a[0], a[1..]);
      Regroup(Pairs(tb, [a[0]]), Pairs(tb, a[1..]), Pairs(tb, b));
    }
  }

  lemma ItemsStep(tb: Tables, item: Json, rest: seq<Json>, index: nat)
    ensures ItemsLines(tb, [item] + rest, index) == ItemLines(tb, item, index) + ItemsLines(tb, rest, index + 1)
  {
    hide ItemLines;
    assert ([item] + rest)[1..] == rest;
  }

  lemma {:induction false} ItemsTogether(tb: Tables, a: seq<Json>, b: seq<Json>, index: nat)
    ensures ItemsLines(tb, a + b, index) == ItemsLines(tb, a, index) + ItemsLines(tb, b, index + |a|)
  {
    if a == [] {
      assert a + b == b;
      AppendNothing(ItemsLines(tb, b, index));
    } else {
      hide ItemsLines, ItemLines;
      ItemsTogether(tb, a[1..], b, index + 1);
      ConsAppend(a, b);
      ItemsStep(tb, a[0], a[1..] + b, index);
      ItemsStep(tb, a[0], a[1..], index);
      Regroup(ItemLines(tb, a[0], index), ItemsLines(tb, a[1..], index + 1), ItemsLines(tb, b, index + |a|));
    }
  }

  lemma Around<T>(s: seq<T>, i: nat, x: T)
    requires i < |s|
    ensures s[i := x] == s[..i] + [x] + s[i + 1..]
  {
  }

  lemma OnePair(tb: Tables, field: Field)
    ensures Pairs(tb, [field]) == if tb.isSensitive(field.key) then [] else ValueLine(tb, KeyLabel(tb, field.key) + "=", field.value)
  {
    assert [field][1..] == [];
    hide ValueLine, KeyLabel;
    AppendNothing(if tb.isSensitive(field.key) then [] else ValueLine(tb, KeyLabel(tb, field.key) + "=", field.value));
  }

  lemma PairShows(tb: Tables, fields: seq<Field>, j: nat, start: string, s: string)
    requires tb.Lawful() && tb.al.Lawful() && IsClean(tb, s, MAX_VALUE_CHARS)
    requires j < |fields| && !tb.isSensitive(fields[j].key)
    ensures start + Join("，", Pairs(tb, fields[j := Field(fields[j].key, Str(s))]))
         == start + Ahead("，", Pairs(tb, fields[..j])) + KeyLabel(tb, fields[j].key) + "=" + s + Behind("，", Pairs(tb, fields[j + 1..]))
  {
    hide Pairs, KeyLabel, SafeValue, Join, Ahead, Behind, IsClean;
    var f := Field(fields[j].key, Str(s));
    Around(fields, j, f);
    PairsTogether(tb, fields[..j] + [f], fields[j + 1..]);
    PairsTogether(tb, fields[..j], [f]);
    OnePair(tb, f);
    ScalarsAreShown(tb, Null, s);
    var x := KeyLabel(tb, f.key) + "=" + s;
    assert s != "" by { CleanIsSome(tb, s); }
    JoinAround("，", Pairs(tb, fields[..j]), x, Pairs(tb, fields[j + 1..]));
    Reassociate(start, Ahead("，", Pairs(tb, fields[..j])), x, Behind("，", Pairs(tb, fields[j + 1..])));
    assert start + Ahead("，", Pairs(tb, fields[..j])) + x == start + Ahead("，", Pairs(tb, fields[..j])) + KeyLabel(tb, f.key) + "=" + s;
  }

  lemma CleanIsSome(tb: Tables, s: string)
    requires IsClean(tb, s, MAX_VALUE_CHARS)
    ensures s != "" && !tb.al.isSpace(s[0]) && !tb.al.isSpace(s[|s| - 1])
  {
  }

  lemma ItemShows(tb: Tables, item: Json, number: nat, path: seq<nat>, s: string)
    requires tb.Lawful() && tb.al.Lawful() && IsClean(tb, s, MAX_VALUE_CHARS) && !item.Arr?
    requires if item.Obj? then |path| == 1 && path[0] < |item.fields| && !tb.isSensitive(item.fields[path[0]].key) else path == []
    ensures ItemLines(tb, PutAt(item, path, Str(s)), number) == ItemContext(tb, item, number, path).Fill(s)
  {
    hide Pairs, KeyLabel, SafeValue, Join, Ahead, Behind, IsClean;
    var start := tb.show(Int(number)) + ". ";
    ScalarsAreShown(tb, Null, s);
    CleanIsSome(tb, s);
    if item.Obj? {
      var fields, j := item.fields, path[0];
      assert path[1..] == [];
      assert PutAt(item, path, Str(s)) == Obj(fields[j := Field(fields[j].key, Str(s))]);
      PairShows(tb, fields, j, start, s);
    } else {
      assert start + s + "" == start + s;
    }
  }

  lemma ItemsAround(tb: Tables, items: seq<Json>, i: nat, item: Json)
    requires i < |items|
    ensures ItemsLines(tb, items[i := item], 1)
         == ItemsLines(tb, items[..i], 1) + ItemLines(tb, item, i + 1) + ItemsLines(tb, items[i + 1..], i + 2)
  {
    hide ItemLines, ItemsLines;
    Around(items, i, item);
    ItemsTogether(tb, items[..i] + [item], items[i + 1..], 1);
    ItemsTogether(tb, items[..i], [item], 1);
    OneItem(tb, item, i + 1);
  }

  lemma ListShows(tb: Tables, items: seq<Json>, path: seq<nat>, caption: string, depth: nat, s: string)
    requires tb.Lawful() && tb.al.Lawful() && IsClean(tb, s, MAX_VALUE_CHARS) && depth < MAX_DEPTH && InList(tb, items, path)
    ensures PutAt(Arr(items), path, Str(s)).Arr?
    ensures ListLines(tb, PutAt(Arr(items), path, Str(s)).items, caption, depth) == ListContext(tb, items, path, caption).Fill(s)
  {
    hide ItemLines, ItemContext, IsClean, SafeLabel, ItemsLines;
    var i, shown := path[0], AtMost(items, MAX_ITEMS);
    var item := PutAt(items[i], path[1..], Str(s));
    assert AtMost(items[i := item], MAX_ITEMS) == shown[i := item];
    ItemsAround(tb, shown, i, item);
    ItemShows(tb, shown[i], i + 1, path[1..], s);
    var heading := if caption != "" then [SafeLabel(tb, caption) + "："] else [];
    FillBetween(ItemContext(tb, shown[i], i + 1, path[1..]), heading + ItemsLines(tb, shown[..i], 1),
                ItemsLines(tb, shown[i + 1..], i + 2), s);
    Reassociate(heading, ItemsLines(tb, shown[..i], 1), ItemLines(tb, item, i + 1), ItemsLines(tb, shown[i + 1..], i + 2));
  }

  lemma OneItem(tb: Tables, item: Json, index: nat)
    ensures ItemsLines(tb, [item], index) == ItemLines(tb, item, index)
  {
    hide ItemLines;
    assert [item][1..] == [];
    AppendNothing(ItemLines(tb, item, index));
  }

  // ---- Dicts ----

  function DictContext(tb: Tables, fields: seq<Field>, path: seq<nat>, prefix: string, depth: nat): Context
    requires InDict(tb, fields, path, depth)
    decreases |path|, 1
  {
    var i := path[0];
    EntryContext(tb, fields[i], path, prefix, depth).Between(
      DictLines(tb, fields[..i], prefix, depth), DictLines(tb, fields[i + 1..], prefix, depth))
  }

  function EntryContext(tb: Tables, field: Field, path: seq<nat>, prefix: string, depth: nat): Context
    requires path != []
    requires field.value.Obj? ==> InDict(tb, field.value.fields, path[1..], depth + 1)
    requires field.value.Arr? ==> InList(tb, field.value.items, path[1..])
    decreases |path|, 0
  {
    var caption := KeyLabel(tb, field.key);
    match field.value
    case Obj(nested) => DictContext(tb, nested, path[1..], prefix + caption + " / ", depth + 1)
    case Arr(items) => ListContext(tb, items, path[1..], prefix + caption)
    case _ => Context([], prefix + caption + "：", "", [])
  }

  lemma {:induction false} DictLinesTogether(tb: Tables, a: seq<Field>, b: seq<Field>, prefix: string, depth: nat)
    ensures DictLines(tb, a + b, prefix, depth) == DictLines(tb, a, prefix, depth) + DictLines(tb, b, prefix, depth)
  {
    hide EntryLines, DictLines;
    NoLines(tb, a, 0, prefix, depth);
    if depth < MAX_DEPTH {
      if a == [] {
        assert a + b == b;
      } else {
        DictLinesTogether(tb, a[1..], b, prefix, depth);
        ConsAppend(a, b);
        DictLinesStep(tb, a[0], a[1..] + b, prefix, depth);
        DictLinesStep(tb, a[0], a[1..], prefix, depth);
        Regroup(EntryLines(tb, a[0], prefix, depth), DictLines(tb, a[1..], prefix, depth), DictLines(tb, b, prefix, depth));
      }
    }
  }

  lemma {:induction false} DictShows(tb: Tables, fields: seq<Field>, path: seq<nat>, prefix: string, depth: nat, s: string)
    requires tb.Lawful() && tb.al.Lawful() && IsClean(tb, s, MAX_VALUE_CHARS) && InDict(tb, fields, path, depth)
    ensures PutAt(Obj(fields), path, Str(s)).Obj?
    ensures DictLines(tb, PutAt(Obj(fields), path, Str(s)).fields, prefix, depth) == DictContext(tb, fields, path, prefix, depth).Fill(s)
    decreases |path|, 1
  {
    hide EntryLines, DictLines, EntryContext, IsClean;
    var i := path[0];
    var f := Field(fields[i].key, PutAt(fields[i].value, path[1..], Str(s)));
    var before, after := DictLines(tb, fields[..i], prefix, depth), DictLines(tb, fields[i + 1..], prefix, depth);
    Around(fields, i, f);
    DictLinesTogether(tb, fields[..i] + [f], fields[i + 1..], prefix, depth);
    DictLinesTogether(tb, fields[..i], [f], prefix, depth);
    OneEntry(tb, f, prefix, depth);
    EntryShows(tb, fields[i], path, prefix, depth, s);
    FillBetween(EntryContext(tb, fields[i], path, prefix, depth), before, after, s);
  }

  lemma OneEntry(tb: Tables, field: Field, prefix: string, depth: nat)
    requires depth < MAX_DEPTH
    ensures DictLines(tb, [field], prefix, depth) == EntryLines(tb, field, prefix, depth)
  {
    hide EntryLines;
    DictLinesStep(tb, field, [], prefix, depth);
    assert [field] + [] == [field];
    AppendNothing(EntryLines(tb, field, prefix, depth));
  }

  lemma {:induction false} EntryShows(tb: Tables, field: Field, path: seq<nat>, prefix: string, depth: nat, s: string)
    requires tb.Lawful() && tb.al.Lawful() && IsClean(tb, s, MAX_VALUE_CHARS) && path != [] && depth < MAX_DEPTH
    requires !tb.isSensitive(field.key)
    requires match field.value
             case Obj(nested) => InDict(tb, nested, path[1..], depth + 1)
             case Arr(items) => depth + 1 < MAX_DEPTH && InList(tb, items, path[1..])
             case _ => |path| == 1
    ensures EntryLines(tb, Field(field.key, PutAt(field.value, path[1..], Str(s))), prefix, depth)
         == EntryContext(tb, field, path, prefix, depth).Fill(s)
    decreases |path|, 0
  {
    hide KeyLabel, IsClean, SafeValue, InList, ListContext, ListLines;
    var caption := KeyLabel(tb, field.key);
    match field.value {
      case Obj(nested) =>
        DictShows(tb, nested, path[1..], prefix + caption + " / ", depth + 1, s);
        hide DictLines, DictContext, InDict;
      case Arr(items) =>
        ListShows(tb, items, path[1..], prefix + caption, depth + 1, s);
        hide PutAt;
      case _ =>
        ScalarsAreShown(tb, Null, s);
        CleanIsSome(tb, s);
        assert prefix + caption + "：" + s + "" == prefix + caption + "：" + s;
    }
  }

  // ---- Items of fields ----

  lemma FieldsStep(tb: Tables, item: Json, rest: seq<Json>)
    ensures FieldsLines(tb, [item] + rest) == FieldLines(tb, item) + FieldsLines(tb, rest)
  {
    hide FieldLines;
    assert ([item] + rest)[1..] == rest;
  }

  lemma {:induction false} FieldsTogether(tb: Tables, a: seq<Json>, b: seq<Json>)
    ensures FieldsLines(tb, a + b) == FieldsLines(tb, a) + FieldsLines(tb, b)
  {
    if a == [] {
      assert a + b == b;
      AppendNothing(FieldsLines(tb, b));
    } else {
      hide FieldsLines, FieldLines;
      FieldsTogether(tb, a[1..], b);
      ConsAppend(a, b);
      FieldsStep(tb, a[0], a[1..] + b);
      FieldsStep(tb, a[0], a[1..]);
      Regroup(FieldLines(tb, a[0]), FieldsLines(tb, a[1..]), FieldsLines(tb, b));
    }
  }

  lemma OneField(tb: Tables, item: Json)
    ensures FieldsLines(tb, [item]) == FieldLines(tb, item)
  {
    hide FieldLines;
    assert [item][1..] == [];
    AppendNothing(FieldLines(tb, item));
  }

  lemma FieldShows(tb: Tables, fields: seq<Field>, j: nat, s: string)
    requires tb.Lawful() && tb.al.Lawful() && IsClean(tb, s, MAX_VALUE_CHARS)
    requires !IsSensitiveItem(tb, fields) && IsFirst(fields, j, "value")
    ensures FieldLines(tb, Obj(fields[j := Field("value", Str(s))])) == [ItemLabel(tb, fields) + "：" + s]
  {
    var changed := fields[j := Field("value", Str(s))];
    WithoutKeyIgnoresValue(fields, j, Str(s));
    assert IsFirst(changed, j, "value");
    GetAt(changed, j, "value");
    ScalarsAreShown(tb, Null, s);
    CleanIsSome(tb, s);
    assert "name" != "value" && "key" != "value" && "label" != "value" by {
      assert |"name"| == 4 && |"key"| == 3 && "label"[0] == 'l' && "value"[0] == 'v';
    }
    hide Get, SafeValue, SafeLabel, IsClean;
  }

  function FieldsContext(tb: Tables, items: seq<Json>, path: seq<nat>): Context
    requires InItems(tb, items, path)
  {
    var i, shown := path[0], AtMost(items, MAX_LINES);
    Context([], ItemLabel(tb, shown[i].fields) + "：", "", []).Between(FieldsLines(tb, shown[..i]), FieldsLines(tb, shown[i + 1..]))
  }

  lemma FieldsShow(tb: Tables, items: seq<Json>, path: seq<nat>, s: string)
    requires tb.Lawful() && tb.al.Lawful() && IsClean(tb, s, MAX_VALUE_CHARS) && InItems(tb, items, path)
    ensures PutAt(Arr(items), path, Str(s)).Arr?
    ensures FieldsLines(tb, AtMost(PutAt(Arr(items), path, Str(s)).items, MAX_LINES)) == FieldsContext(tb, items, path).Fill(s)
  {
    hide IsClean, ItemLabel, IsSensitiveItem, FieldLines, FieldsLines;
    var i, j, shown := path[0], path[1], AtMost(items, MAX_LINES);
    var fields := items[i].fields;
    var item := Obj(fields[j := Field("value", Str(s))]);
    assert path[1..] == [j] && path[1..][1..] == [];
    assert PutAt(items[i], path[1..], Str(s)) == item;
    assert AtMost(items[i := item], MAX_LINES) == shown[i := item];
    Around(shown, i, item);
    FieldsTogether(tb, shown[..i] + [item], shown[i + 1..]);
    FieldsTogether(tb, shown[..i], [item]);
    OneField(tb, item);
    FieldShows(tb, fields, j, s);
    var c := Context([], ItemLabel(tb, fields) + "：", "", []);
    assert ItemLabel(tb, fields) + "：" + s + "" == ItemLabel(tb, fields) + "：" + s;
    FillBetween(c, FieldsLines(tb, shown[..i]), FieldsLines(tb, shown[i + 1..]), s);
    assert c.Fill(s) == [ItemLabel(tb, fields) + "：" + s];
  }

  // ---- All data ----

  function DataContext(tb: Tables, data: Json, path: seq<nat>): Context
    requires IsShownAt(tb, data, path)
  {
    match data
    case Obj(fields) =>
      if ShowsItems(fields) then FieldsContext(tb, fields[path[0]].value.items, path[1..]) else DictContext(tb, fields, path, "", 0)
    case Arr(items) => ListContext(tb, items, path, "")
    case _ => Context([], "", "", [])
  }

  lemma FillIsSome(c: Context, s: string)
    ensures OrNothing(c.Fill(s)) == c.Fill(s)
  {
  }

  /** A value that is shown stands in one line, after its captions; everything around it is the same
      whatever the value is. */
  lemma ValueIsShown(tb: Tables, data: Json, path: seq<nat>, s: string)
    requires tb.Lawful() && tb.al.Lawful() && IsClean(tb, s, MAX_VALUE_CHARS) && IsShownAt(tb, data, path)
    ensures DataLines(tb, PutAt(data, path, Str(s))) == DataContext(tb, data, path).Fill(s)
  {
    hide IsClean, DictContext, ListContext, FieldsContext, DictLines, ListLines, FieldsLines, InDict, InList, InItems, SafeValue, AtMost;
    FillIsSome(DataContext(tb, data, path), s);
    match data {
      case Obj(fields) => ObjectShows(tb, fields, path, s);
      case Arr(items) => ListShows(tb, items, path, "", 0, s);
      case _ =>
        ScalarsAreShown(tb, Null, s);
        CleanIsSome(tb, s);
        assert "" + s + "" == s && [] + [s] + [] == [s];
    }
  }

  lemma ObjectShows(tb: Tables, fields: seq<Field>, path: seq<nat>, s: string)
    requires tb.Lawful() && tb.al.Lawful() && IsClean(tb, s, MAX_VALUE_CHARS) && IsShownAt(tb, Obj(fields), path)
    ensures DataLines(tb, PutAt(Obj(fields), path, Str(s))) == DataContext(tb, Obj(fields), path).Fill(s)
  {
    hide IsClean, DictContext, FieldsContext, DictLines, FieldsLines, InItems, AtMost, Get;
    FillIsSome(DataContext(tb, Obj(fields), path), s);
    InDictStarts(tb, fields, path);
    var i := path[0];
    var v := PutAt(fields[i].value, path[1..], Str(s));
    var changed := fields[i := Field(fields[i].key, v)];
    assert PutAt(Obj(fields), path, Str(s)) == Obj(changed);
    WithoutKeyIgnoresValue(fields, i, v);
    assert "fields" != "text" by { assert |"fields"| == 6 && |"text"| == 4; }
    if ShowsItems(fields) {
      FieldsShow(tb, fields[i].value.items, path[1..], s);
      assert IsFirst(changed, i, "fields");
      GetAt(changed, i, "fields");
      GetAt(fields, i, "fields");
    } else {
      DictShows(tb, fields, path, "", 0, s);
      ValueStaysInPlace(tb, fields, path, s);
    }
  }

  lemma InDictStarts(tb: Tables, fields: seq<Field>, path: seq<nat>)
    requires IsShownAt(tb, Obj(fields), path)
    ensures path != [] && path[0] < |fields|
  {
  }

  /** The changed dict is still shown as one. */
  lemma ValueStaysInPlace(tb: Tables, fields: seq<Field>, path: seq<nat>, s: string)
    requires InDict(tb, fields, path, 0) && !IsText(fields) && !ShowsItems(fields) && (|path| == 1 ==> fields[path[0]].key != "text")
    ensures PutAt(Obj(fields), path, Str(s)).Obj?
    ensures var changed := PutAt(Obj(fields), path, Str(s)).fields; !IsText(changed) && !ShowsItems(changed)
  {
    var i := path[0];
    var v := PutAt(fields[i].value, path[1..], Str(s));
    var changed := fields[i := Field(fields[i].key, v)];
    SameKindAt(tb, fields, path, s);
    GetOfChanged(fields, i, v, "text");
    GetOfChanged(fields, i, v, "fields");
    hide Get;
  }

  lemma SameKindAt(tb: Tables, fields: seq<Field>, path: seq<nat>, s: string)
    requires InDict(tb, fields, path, 0)
    ensures var was, v := fields[path[0]].value, PutAt(fields[path[0]].value, path[1..], Str(s));
            if was.Obj? then v.Obj? else if was.Arr? then v.Arr? else |path| == 1 && v == Str(s)
  {
  }

  lemma {:induction false} GetOfChanged(fields: seq<Field>, i: nat, v: Json, key: string)
    requires i < |fields|
    ensures var changed := fields[i := Field(fields[i].key, v)];
            Get(changed, key) == Get(fields, key) || (fields[i].key == key && Get(fields, key) == fields[i].value && Get(changed, key) == v)
  {
    var changed := fields[i := Field(fields[i].key, v)];
    if i == 0 {
      assert changed[1..] == fields[1..];
    } else {
      assert changed[1..] == fields[1..][i - 1 := Field(fields[i].key, v)];
      GetOfChanged(fields[1..], i - 1, v, key);
    }
  }

  // ---- The lines are plain ----

  /** The tables also show numbers in plain characters, and what the formatter writes between entries and
      for nothing is plain too. */
  ghost predicate PlainLists(tb: Tables) {
    && PlainTables(tb) && !tb.al.isSpace('，') && !tb.al.isUnsafe('，')
    && PlainLine(tb, NOTHING_TO_SHOW) && forall i: nat :: PlainLine(tb, tb.show(Int(i)))
  }

  function PlainSample(): Tables {
    Tables((key: string) => key == "", (v: Json) => if v.Str? then v.s else "1", map[], Alphabet(c => c == ' ', c => c == '\n'), c => c == '\n')
  }

  lemma SampleIsPlain()
    ensures PlainTables(PlainSample())
  {
    assert forall key | key in STRUCTURAL_KEYS :: key != "";
  }

  lemma SampleLinesArePlain()
    ensures PlainLine(PlainSample(), NOTHING_TO_SHOW) && PlainLine(PlainSample(), "1")
    ensures forall i: nat :: PlainSample().show(Int(i)) == "1"
  {
  }

  lemma PlainListsExist()
    ensures exists tb: Tables :: PlainLists(tb)
  {
    SampleIsPlain();
    SampleLinesArePlain();
    hide PlainTables, PlainLine;
    assert PlainLists(PlainSample());
  }

  /** No line end in it. */
  ghost predicate Unbroken(tb: Tables, s: string) {
    forall c | c in s :: !tb.isBreak(c)
  }

  ghost predicate AllPlain(tb: Tables, lines: seq<string>) {
    forall line | line in lines :: PlainLine(tb, line)
  }

  lemma PlainThen(tb: Tables, first: string, rest: string)
    requires PlainLine(tb, first) && Unbroken(tb, rest)
    ensures PlainLine(tb, first + rest) && Unbroken(tb, first)
  {
    assert (first + rest)[0] == first[0];
  }

  lemma OwnIsUnbroken(tb: Tables)
    requires PlainLists(tb)
    ensures Unbroken(tb, "") && Unbroken(tb, "：") && Unbroken(tb, " / ") && Unbroken(tb, ". ") && Unbroken(tb, "=") && Unbroken(tb, "，")
  {
  }

  lemma UnbrokenTogether(tb: Tables, a: string, b: string)
    requires Unbroken(tb, a) && Unbroken(tb, b)
    ensures Unbroken(tb, a + b)
  {
  }

  lemma PlainTogether(tb: Tables, a: seq<string>, b: seq<string>)
    requires AllPlain(tb, a) && AllPlain(tb, b)
    ensures AllPlain(tb, a + b)
  {
  }

  lemma CaptionPlain(tb: Tables, key: string)
    requires PlainLists(tb)
    ensures PlainLine(tb, KeyLabel(tb, key)) && Unbroken(tb, KeyLabel(tb, key))
  {
    LabelIsPlain(tb, if key in tb.labels then tb.labels[key] else key);
    hide SafeLabel, PlainTables;
  }

  lemma ShownIsUnbroken(tb: Tables, v: Json)
    requires PlainLists(tb)
    ensures Unbroken(tb, SafeValue(tb, v))
  {
    if SafeValue(tb, v) != "" {
      ValueIsPlain(tb, v);
    }
    hide SafeValue, PlainTables;
  }

  /** A value after a plain start. */
  lemma ValueLineIsPlain(tb: Tables, start: string, v: Json)
    requires PlainLists(tb) && PlainLine(tb, start)
    ensures AllPlain(tb, ValueLine(tb, start, v))
  {
    ShownIsUnbroken(tb, v);
    PlainThen(tb, start, SafeValue(tb, v));
    hide SafeValue, PlainLine, Unbroken, PlainLists;
  }

  lemma {:induction false} PairsUnbroken(tb: Tables, fields: seq<Field>)
    requires PlainLists(tb)
    ensures forall pair | pair in Pairs(tb, fields) :: Unbroken(tb, pair)
  {
    if fields != [] {
      var f := fields[0];
      PairsUnbroken(tb, fields[1..]);
      OwnIsUnbroken(tb);
      CaptionPlain(tb, f.key);
      ShownIsUnbroken(tb, f.value);
      hide PlainLists, KeyLabel, SafeValue, Unbroken;
      UnbrokenTogether(tb, KeyLabel(tb, f.key), "=");
      UnbrokenTogether(tb, KeyLabel(tb, f.key) + "=", SafeValue(tb, f.value));
    }
  }

  lemma {:induction false} JoinUnbroken(tb: Tables, parts: seq<string>)
    requires PlainLists(tb) && forall part | part in parts :: Unbroken(tb, part)
    ensures Unbroken(tb, Join("，", parts))
  {
    hide PlainLists, Unbroken;
    OwnIsUnbroken(tb);
    if parts != [] {
      assert parts[0] in parts && forall part | part in parts[1..] :: part in parts;
      if |parts| > 1 {
        JoinUnbroken(tb, parts[1..]);
        UnbrokenTogether(tb, parts[0], "，");
        UnbrokenTogether(tb, parts[0] + "，", Join("，", parts[1..]));
      }
    }
  }

  lemma ItemLinePlain(tb: Tables, item: Json, index: nat)
    requires PlainLists(tb)
    ensures AllPlain(tb, ItemLines(tb, item, index))
  {
    OwnIsUnbroken(tb);
    var start := tb.show(Int(index)) + ". ";
    assert PlainLine(tb, tb.show(Int(index)));
    hide PlainLists, PlainLine, Unbroken, ValueLine;
    PlainThen(tb, tb.show(Int(index)), ". ");
    if item.Obj? {
      PairsUnbroken(tb, item.fields);
      JoinUnbroken(tb, Pairs(tb, item.fields));
      PlainThen(tb, start, Join("，", Pairs(tb, item.fields)));
    } else if !item.Arr? {
      ValueLineIsPlain(tb, start, item);
    }
    hide Pairs, Join;
  }

  lemma {:induction false} ItemsPlain(tb: Tables, items: seq<Json>, index: nat)
    requires PlainLists(tb)
    ensures AllPlain(tb, ItemsLines(tb, items, index))
  {
    if items != [] {
      ItemLinePlain(tb, items[0], index);
      ItemsPlain(tb, items[1..], index + 1);
      PlainTogether(tb, ItemLines(tb, items[0], index), ItemsLines(tb, items[1..], index + 1));
      hide PlainLists, PlainLine, ItemLines;
    }
  }

  lemma ListPlain(tb: Tables, items: seq<Json>, caption: string, depth: nat)
    requires PlainLists(tb)
    ensures AllPlain(tb, ListLines(tb, items, caption, depth))
  {
    ItemsPlain(tb, AtMost(items, MAX_ITEMS), 1);
    LabelIsPlain(tb, caption);
    OwnIsUnbroken(tb);
    PlainThen(tb, SafeLabel(tb, caption), "：");
    hide PlainLists, PlainLine, ItemsLines, SafeLabel, AtMost;
    PlainTogether(tb, [SafeLabel(tb, caption) + "："], ItemsLines(tb, AtMost(items, MAX_ITEMS), 1));
    PlainTogether(tb, [], ItemsLines(tb, AtMost(items, MAX_ITEMS), 1));
  }

  lemma PrefixPlain(tb: Tables, prefix: string, key: string, mark: string)
    requires PlainLists(tb) && (prefix == "" || PlainLine(tb, prefix)) && mark in {"：", " / ", ""}
    ensures PlainLine(tb, prefix + KeyLabel(tb, key) + mark)
  {
    hide PlainLine, Unbroken, KeyLabel;
    OwnIsUnbroken(tb);
    CaptionPlain(tb, key);
    hide PlainLists;
    if prefix == "" {
      assert prefix + KeyLabel(tb, key) == KeyLabel(tb, key);
    } else {
      PlainThen(tb, prefix, KeyLabel(tb, key));
    }
    PlainThen(tb, prefix + KeyLabel(tb, key), mark);
  }

  lemma {:induction false} DictPlain(tb: Tables, fields: seq<Field>, prefix: string, depth: nat)
    requires PlainLists(tb) && (prefix == "" || PlainLine(tb, prefix))
    ensures AllPlain(tb, DictLines(tb, fields, prefix, depth))
    decreases if depth < MAX_DEPTH then MAX_DEPTH - depth else 0, |fields|, 1
  {
    hide PlainLists, PlainLine, EntryLines, DictLines, AllPlain;
    NothingIsPlain(tb);
    NoLines(tb, fields, 0, prefix, depth);
    if depth < MAX_DEPTH && fields != [] {
      EntryPlain(tb, fields[0], prefix, depth);
      DictPlain(tb, fields[1..], prefix, depth);
      assert fields == [fields[0]] + fields[1..];
      DictLinesStep(tb, fields[0], fields[1..], prefix, depth);
      PlainTogether(tb, EntryLines(tb, fields[0], prefix, depth), DictLines(tb, fields[1..], prefix, depth));
    }
  }

  lemma NothingIsPlain(tb: Tables)
    ensures AllPlain(tb, [])
  {
  }

  lemma {:induction false} EntryPlain(tb: Tables, field: Field, prefix: string, depth: nat)
    requires PlainLists(tb) && (prefix == "" || PlainLine(tb, prefix)) && depth < MAX_DEPTH
    ensures AllPlain(tb, EntryLines(tb, field, prefix, depth))
    decreases MAX_DEPTH - depth, 0, 0
  {
    hide PlainLists, PlainLine, DictLines, ListLines, ValueLine, AllPlain, KeyLabel;
    NothingIsPlain(tb);
    var caption := KeyLabel(tb, field.key);
    PrefixPlain(tb, prefix, field.key, " / ");
    PrefixPlain(tb, prefix, field.key, "：");
    match field.value
    case Obj(nested) => DictPlain(tb, nested, prefix + caption + " / ", depth + 1);
    case Arr(items) => ListPlain(tb, items, prefix + caption, depth + 1);
    case v => ValueLineIsPlain(tb, prefix + caption + "：", v);
  }

  lemma DataPlain(tb: Tables, data: Json)
    requires PlainLists(tb) && (if data.Obj? then !IsText(data.fields) else data.Arr? || SafeValue(tb, data) != "")
    ensures AllPlain(tb, DataLines(tb, data))
  {
    hide PlainLine, DictLines, ListLines, FieldsLines, SafeValue, AtMost;
    match data
    case Obj(fields) =>
      DictPlain(tb, fields, "", 0);
      if ShowsItems(fields) {
        LinesArePlain(tb, AtMost(Get(fields, "fields").items, MAX_LINES));
      }
    case Arr(items) => ListPlain(tb, items, "", 0);
    case _ => ValueIsPlain(tb, data);
  }

  // ---- The text tells the value ----

  lemma {:induction false} DictPost(tb: Tables, fields: seq<Field>, path: seq<nat>, prefix: string, depth: nat)
    requires InDict(tb, fields, path, depth)
    ensures IsSeparated(DictContext(tb, fields, path, prefix, depth).post)
    decreases |path|
  {
    var f := fields[path[0]];
    if f.value.Obj? {
      DictPost(tb, f.value.fields, path[1..], prefix + KeyLabel(tb, f.key) + " / ", depth + 1);
    } else if f.value.Arr? {
      ListPost(tb, f.value.items, path[1..], prefix + KeyLabel(tb, f.key));
    }
    hide KeyLabel, DictLines, ListContext, InList;
  }

  /** What follows a value in its line starts with a comma. */
  predicate IsSeparated(post: string) {
    post == "" || post[0] == '，'
  }

  lemma ListPost(tb: Tables, items: seq<Json>, path: seq<nat>, caption: string)
    requires InList(tb, items, path)
    ensures IsSeparated(ListContext(tb, items, path, caption).post)
  {
    hide Pairs, Join, KeyLabel, ItemsLines, SafeLabel;
  }

  lemma ContextPost(tb: Tables, data: Json, path: seq<nat>)
    requires IsShownAt(tb, data, path)
    ensures IsSeparated(DataContext(tb, data, path).post)
  {
    hide InDict, InList, DictContext, ListContext, IsText, ShowsItems;
    match data
    case Obj(fields) => FieldsPost(tb, fields, path);
    case Arr(items) => ListPost(tb, items, path, "");
    case _ =>
  }

  lemma FieldsPost(tb: Tables, fields: seq<Field>, path: seq<nat>)
    requires IsShownAt(tb, Obj(fields), path)
    ensures IsSeparated(DataContext(tb, Obj(fields), path).post)
  {
    if !ShowsItems(fields) {
      DictPost(tb, fields, path, "", 0);
    }
    hide FieldsLines, ItemLabel, DictContext;
  }

  lemma SolidEnd(al: Alphabet, x: string)
    requires x != "" && !al.isSpace(x[|x| - 1])
    ensures al.RStrip(x) == x
  {
  }

  lemma SolidTail(al: Alphabet, pre: string, s: string)
    requires s != "" && !al.isSpace(s[|s| - 1])
    ensures al.RStrip(pre + s) == pre + s
  {
    assert (pre + s)[|pre| + |s| - 1] == s[|s| - 1];
    SolidEnd(al, pre + s);
    hide Alphabet.RStrip;
  }

  lemma LineDecides(pre: string, post: string, s: string, t: string)
    requires pre + s + post == pre + t + post
    ensures s == t
  {
    SameSuffix(pre + s, pre + t, post);
    SamePrefix(pre, s, t);
  }

  lemma LastPartDecides(al: Alphabet, pre: string, s: string, t: string)
    requires s != "" && !al.isSpace(s[|s| - 1]) && t != "" && !al.isSpace(t[|t| - 1])
    requires al.RStrip(pre + s) == al.RStrip(pre + t)
    ensures s == t
  {
    hide Alphabet.RStrip;
    SolidTail(al, pre, s);
    SolidTail(al, pre, t);
    SamePrefix(pre, s, t);
  }

  lemma NothingBehind<T>(a: seq<T>, b: seq<T>)
    ensures a + b + [] == a + b
  {
  }

  /** Lines that are equal but for the blanks at their ends, around values without any. */
  lemma RestOfLineDecides(al: Alphabet, pre: string, post: string, s: string, t: string)
    requires post == "" || !al.isSpace(post[0])
    requires s != "" && !al.isSpace(s[|s| - 1]) && t != "" && !al.isSpace(t[|t| - 1])
    requires al.RStrip(pre + s + post) == al.RStrip(pre + t + post)
    ensures s == t
  {
    hide Alphabet.RStrip;
    NothingBehind(pre, s);
    NothingBehind(pre, t);
    if post == "" {
      LastPartDecides(al, pre, s, t);
    } else {
      RStripTogether(al, pre + s, post);
      RStripTogether(al, pre + t, post);
      LineDecides(pre, al.RStrip(post), s, t);
    }
  }

  lemma FillDecides(al: Alphabet, c: Context, s: string, t: string)
    requires c.post == "" || !al.isSpace(c.post[0])
    requires s != "" && !al.isSpace(s[|s| - 1]) && t != "" && !al.isSpace(t[|t| - 1])
    requires Stripped(al, c.Fill(s)) == Stripped(al, c.Fill(t))
    ensures s == t
  {
    hide Alphabet.RStrip;
    var a, b, n := c.Fill(s), c.Fill(t), |c.before|;
    assert a[n] == c.pre + s + c.post && b[n] == c.pre + t + c.post;
    assert Stripped(al, a)[n] == if c.after == [] then al.RStrip(a[n]) else a[n];
    assert Stripped(al, b)[n] == if c.after == [] then al.RStrip(b[n]) else b[n];
    if c.after == [] {
      RestOfLineDecides(al, c.pre, c.post, s, t);
    } else {
      LineDecides(c.pre, c.post, s, t);
    }
  }

  /** The changed data are shown in the same way. */
  lemma StaysShown(tb: Tables, data: Json, path: seq<nat>, s: string)
    requires tb.Lawful() && tb.al.Lawful() && IsShownAt(tb, data, path) && IsClean(tb, s, MAX_VALUE_CHARS)
    ensures var changed := PutAt(data, path, Str(s));
            if changed.Obj? then !IsText(changed.fields) else changed.Arr? || SafeValue(tb, changed) != ""
  {
    hide IsClean, SafeValue;
    match data {
      case Obj(fields) => ObjectStaysShown(tb, fields, path, s);
      case Arr(items) =>
      case _ =>
        ScalarsAreShown(tb, Null, s);
        CleanIsSome(tb, s);
    }
    hide Get;
  }

  lemma ObjectStaysShown(tb: Tables, fields: seq<Field>, path: seq<nat>, s: string)
    requires IsShownAt(tb, Obj(fields), path)
    ensures PutAt(Obj(fields), path, Str(s)).Obj? && !IsText(PutAt(Obj(fields), path, Str(s)).fields)
  {
    if ShowsItems(fields) {
      assert fields[path[0]].key == "fields" && path != [];
      assert "fields" != "text" by { assert |"fields"| == 6 && |"text"| == 4; }
      var v := PutAt(fields[path[0]].value, path[1..], Str(s));
      GetOfChanged(fields, path[0], v, "text");
    } else {
      ValueStaysInPlace(tb, fields, path, s);
    }
    hide Get;
  }

  /** Two payloads whose data differ in one clean text that is shown, at the end of a path of keys that
      are not sensitive, in an item of a list or of `fields`, or by itself, give different texts if
      nothing is cut. */
  lemma DifferentValuesDifferentTexts(tb: Tables, title: string, one: seq<Field>, other: seq<Field>, data: Json, path: seq<nat>,
                                      s: string, t: string)
    requires PlainLists(tb) && IsShownAt(tb, data, path)
    requires IsClean(tb, s, MAX_VALUE_CHARS) && IsClean(tb, t, MAX_VALUE_CHARS) && s != t
    requires DataOf(one) == PutAt(data, path, Str(s)) && DataOf(other) == PutAt(data, path, Str(t))
    requires Uncut(tb, title, one) && Uncut(tb, title, other)
    ensures Formatted(tb, title, one) != Formatted(tb, title, other)
  {
    hide IsShownAt, IsClean, PutAt, Uncut, Formatted, DataLines, DataContext, PlainLine, IsText, SafeValue, Stripped, Join,
      Alphabet.Strip, Alphabet.LStrip, Parts, SplitLines, Lead, Context.Fill;
    var c := DataContext(tb, data, path);
    ValueIsShown(tb, data, path, s);
    ValueIsShown(tb, data, path, t);
    StaysShown(tb, data, path, s);
    StaysShown(tb, data, path, t);
    DataPlain(tb, DataOf(one));
    DataPlain(tb, DataOf(other));
    var a, b := c.Fill(s), c.Fill(t);
    FillHasLines(c, s);
    FillHasLines(c, t);
    UncutText(tb, title, one, a);
    UncutText(tb, title, other, b);
    TextTellsLines(tb, Parts(tb, title), a);
    TextTellsLines(tb, Parts(tb, title), b);
    ContextPost(tb, data, path);
    CleanIsSome(tb, s);
    CleanIsSome(tb, t);
    if Formatted(tb, title, one) == Formatted(tb, title, other) {
      SamePrefix(tb.al.LStrip(Lead(Parts(tb, title))), Join("\n", Stripped(tb.al, a)), Join("\n", Stripped(tb.al, b)));
      FillDecides(tb.al, c, s, t);
    }
  }

  lemma FillHasLines(c: Context, s: string)
    ensures c.Fill(s) != []
  {
  }
}
