/** Rendering a gateway payload for the operator: the output depends only on data whose keys are
    not sensitive, the early exits of the loops change nothing, and the result stays within bounds. */
module ResponseFormatting {
  import opened Json
  import opened PyText
  import SseStream

  const MAX_LINES := 32
  const MAX_CHARS := 1800
  const MAX_DEPTH := 4
  const MAX_LABEL_CHARS := 80
  const MAX_VALUE_CHARS := 500
  const MAX_ITEMS := 10
  const DEFAULT_LABEL := "信息"
  const NOTHING_TO_SHOW := "查询成功，但没有可展示的数据。"
  const TRUNCATED := "...结果已截断"

  /** The tables of the formatter and of Python: which normalised keys are sensitive, `str` of a JSON
      value, the labels of known fields, blanks and unsafe characters, and where `splitlines` cuts. */
  datatype Tables = Tables(isSensitive: string -> bool, show: Json -> string, labels: map<string, string>,
                           al: Alphabet, isBreak: char -> bool)
  {
    ghost predicate Lawful() {
      && (forall key | key in STRUCTURAL_KEYS :: !isSensitive(key))
      && (forall s: string :: show(Str(s)) == s)
      && isBreak('\n') && !isBreak('：') && !isBreak('.')
    }
  }

  /** The keys the formatter itself looks up. */
  const STRUCTURAL_KEYS := {"data", "ok", "text", "fields", "name", "key", "label", "value"}

  /** The laws can be met: a table with one sensitive key and line feeds as the only line ends. */
  lemma LawfulTablesExist()
    ensures exists tb: Tables :: tb.Lawful()
  {
    var al := Alphabet(c => c == ' ', c => c == '\t');
    var tb := Tables((key: string) => key == "token", (v: Json) => if v.Str? then v.s else "", map[], al, c => c == '\n');
    forall key | key in STRUCTURAL_KEYS ensures !tb.isSensitive(key) {
      assert "token"[0] == 't' && |"token"| == 5;
    }
    assert tb.Lawful();
  }

  // ---- Values and labels ----

  predicate Truthy(v: Json) {
    match v
    case Null => false
    case Bool(b) => b
    case Int(i) => i != 0
    case Float(finite, r) => !finite || r != 0.0
    case Str(s) => s != ""
    case Arr(items) => items != []
    case Obj(fields) => fields != []
  }

  function SafeInline(tb: Tables, text: string, limit: nat): string {
    Take(tb.al.Collapse(tb.al.Sanitize(text)), limit)
  }

  function SafeLabel(tb: Tables, text: string): string {
    var rendered := SafeInline(tb, text, MAX_LABEL_CHARS);
    if rendered != "" then rendered else DEFAULT_LABEL
  }

  function KeyLabel(tb: Tables, key: string): string {
    SafeLabel(tb, if key in tb.labels then tb.labels[key] else key)
  }

  function SafeValue(tb: Tables, v: Json): string {
    match v
    case Null => "-"
    case Bool(b) => if b then "是" else "否"
    case Str(_) => SafeInline(tb, tb.show(v), MAX_VALUE_CHARS)
    case Int(_) => SafeInline(tb, tb.show(v), MAX_VALUE_CHARS)
    case Float(_, _) => SafeInline(tb, tb.show(v), MAX_VALUE_CHARS)
    case Arr(_) => ""
    case Obj(_) => ""
  }

  function SplitLines(s: string): seq<string>
    decreases |s|
  {
    if s == "" then [""]
    else
      var rest := SplitLines(s[1..]);
      if s[0] == '\n' then [""] + rest else if rest == [] then [[s[0]]] else [[s[0]] + rest[0]] + rest[1..]
  }

  function Join(separator: string, parts: seq<string>): string {
    if parts == [] then "" else if |parts| == 1 then parts[0] else parts[0] + separator + Join(separator, parts[1..])
  }

  function AtMost<T>(s: seq<T>, n: nat): (t: seq<T>)
    ensures t <= s && |t| <= n && (|s| <= n ==> t == s)
  {
    if |s| <= n then s else s[..n]
  }

  function SafeBlock(tb: Tables, text: string): string {
    var lines := AtMost(SplitLines(SseStream.Normalize(text)), MAX_LINES);
    tb.al.Strip(Join("\n", SafeBlockLines(tb, lines)))
  }

  function SafeBlockLines(tb: Tables, lines: seq<string>): seq<string> {
    if lines == [] then []
    else [tb.al.RStrip(Take(tb.al.Sanitize(lines[0]), MAX_VALUE_CHARS))] + SafeBlockLines(tb, lines[1..])
  }

  // ---- The lines, without any early exit ----

  function ValueLine(tb: Tables, start: string, v: Json): seq<string> {
    var rendered := SafeValue(tb, v);
    if rendered != "" then [start + rendered] else []
  }

  function DictLines(tb: Tables, fields: seq<Field>, prefix: string, depth: nat): seq<string>
    decreases if depth < MAX_DEPTH then MAX_DEPTH - depth else 0, |fields|, 1
  {
    if depth >= MAX_DEPTH || fields == [] then []
    else EntryLines(tb, fields[0], prefix, depth) + DictLines(tb, fields[1..], prefix, depth)
  }

  function EntryLines(tb: Tables, field: Field, prefix: string, depth: nat): seq<string>
    requires depth < MAX_DEPTH
    decreases MAX_DEPTH - depth, 0, 0
  {
    if tb.isSensitive(field.key) then []
    else
      var caption := KeyLabel(tb, field.key);
      match field.value
      case Obj(nested) => DictLines(tb, nested, prefix + caption + " / ", depth + 1)
      case Arr(items) => ListLines(tb, items, prefix + caption, depth + 1)
      case v => ValueLine(tb, prefix + caption + "：", v)
  }

  function ListLines(tb: Tables, items: seq<Json>, caption: string, depth: nat): seq<string> {
    if depth >= MAX_DEPTH then []
    else (if caption != "" then [SafeLabel(tb, caption) + "："] else []) + ItemsLines(tb, AtMost(items, MAX_ITEMS), 1)
  }

  function ItemsLines(tb: Tables, items: seq<Json>, index: nat): seq<string> {
    if items == [] then [] else ItemLines(tb, items[0], index) + ItemsLines(tb, items[1..], index + 1)
  }

  function ItemLines(tb: Tables, item: Json, index: nat): seq<string> {
    var number := tb.show(Int(index)) + ". ";
    match item
    case Obj(fields) => [number + Join("，", Pairs(tb, fields))]
    case Arr(_) => []
    case v => ValueLine(tb, number, v)
  }

  function Pairs(tb: Tables, fields: seq<Field>): seq<string> {
    if fields == [] then []
    else
      (if tb.isSensitive(fields[0].key) then [] else ValueLine(tb, KeyLabel(tb, fields[0].key) + "=", fields[0].value))
      + Pairs(tb, fields[1..])
  }

  predicate IsSensitiveName(tb: Tables, v: Json) {
    Truthy(v) && tb.isSensitive(tb.show(v))
  }

  /** An item of `fields` whose name, key or label is sensitive. */
  predicate IsSensitiveItem(tb: Tables, fields: seq<Field>) {
    IsSensitiveName(tb, Get(fields, "name")) || IsSensitiveName(tb, Get(fields, "key")) || IsSensitiveName(tb, Get(fields, "label"))
  }

  function ItemLabel(tb: Tables, fields: seq<Field>): string {
    var caption, name, key := Get(fields, "label"), Get(fields, "name"), Get(fields, "key");
    if Truthy(caption) then SafeLabel(tb, tb.show(caption))
    else if Truthy(name) then SafeLabel(tb, tb.show(name))
    else if Truthy(key) then SafeLabel(tb, tb.show(key))
    else SafeLabel(tb, DEFAULT_LABEL)
  }

  function FieldLines(tb: Tables, item: Json): seq<string> {
    match item
    case Obj(fields) =>
      if IsSensitiveItem(tb, fields) then [] else ValueLine(tb, ItemLabel(tb, fields) + "：", Get(fields, "value"))
    case _ => []
  }

  function FieldsLines(tb: Tables, items: seq<Json>): seq<string> {
    if items == [] then [] else FieldLines(tb, items[0]) + FieldsLines(tb, items[1..])
  }

  predicate IsEnvelope(payload: seq<Field>) {
    Has(payload, "data") || Has(payload, "ok")
  }

  function DataOf(payload: seq<Field>): Json {
    if IsEnvelope(payload) then Get(payload, "data") else Obj(payload)
  }

  predicate IsText(fields: seq<Field>) {
    Get(fields, "text").Str? && Get(fields, "text").s != ""
  }

  function OrNothing(lines: seq<string>): seq<string> {
    if lines == [] then [NOTHING_TO_SHOW] else lines
  }

  function DataLines(tb: Tables, data: Json): seq<string> {
    match data
    case Obj(fields) =>
      if IsText(fields) then [SafeBlock(tb, Get(fields, "text").s)]
      else if Get(fields, "fields").Arr? then FieldsLines(tb, AtMost(Get(fields, "fields").items, MAX_LINES))
      else OrNothing(DictLines(tb, fields, "", 0))
    case Arr(items) => OrNothing(ListLines(tb, items, "", 0))
    case Null => [NOTHING_TO_SHOW]
    case Str(s) => if s == "" then [NOTHING_TO_SHOW] else [SafeValue(tb, data)]
    case _ => [SafeValue(tb, data)]
  }

  // ---- The text ----

  /** The non-empty parts of a line that `splitlines` gives. */
  function Parts(tb: Tables, line: string): seq<string> {
    Alphabet(tb.isBreak, tb.al.isUnsafe).Words(line)
  }

  function AllParts(tb: Tables, lines: seq<string>): seq<string> {
    if lines == [] then [] else Parts(tb, lines[0]) + AllParts(tb, lines[1..])
  }

  function Clip(tb: Tables, text: string): (result: string)
    ensures |result| <= MAX_CHARS
  {
    if |text| > MAX_CHARS then tb.al.RStrip(text[..MAX_CHARS - 12]) + TRUNCATED else text
  }

  function Finish(tb: Tables, lines: seq<string>): string {
    Clip(tb, tb.al.Strip(Join("\n", AtMost(AllParts(tb, lines), MAX_LINES))))
  }

  function Formatted(tb: Tables, title: string, payload: seq<Field>): string {
    Finish(tb, [title] + DataLines(tb, DataOf(payload)))
  }

  // ---- Redaction ----

  /** Without the entries under sensitive keys, at every depth. */
  function Redact(tb: Tables, v: Json): Json
    decreases v, 1
  {
    match v
    case Obj(fields) => Obj(RedactFields(tb, fields))
    case Arr(items) => Arr(RedactItems(tb, items))
    case _ => v
  }

  function RedactFields(tb: Tables, fields: seq<Field>): seq<Field>
    decreases fields, 0
  {
    if fields == [] then []
    else
      (if tb.isSensitive(fields[0].key) then [] else [Field(fields[0].key, Redact(tb, fields[0].value))])
      + RedactFields(tb, fields[1..])
  }

  function RedactItems(tb: Tables, items: seq<Json>): (r: seq<Json>)
    ensures |r| == |items|
    decreases items, 0
  {
    if items == [] then [] else [Redact(tb, items[0])] + RedactItems(tb, items[1..])
  }

  function WithoutKey(fields: seq<Field>, key: string): seq<Field> {
    if fields == [] then []
    else (if fields[0].key == key then [] else [fields[0]]) + WithoutKey(fields[1..], key)
  }

  /** An item of `fields`: as any value, and with an empty value in place of its own when its name
      is sensitive. */
  function RedactItem(tb: Tables, item: Json): Json {
    if item.Obj? && IsSensitiveItem(tb, item.fields)
    then Obj([Field("value", Str(""))] + RedactFields(tb, WithoutKey(item.fields, "value")))
    else Redact(tb, item)
  }

  function RedactFieldItems(tb: Tables, items: seq<Json>): (r: seq<Json>)
    ensures |r| == |items|
  {
    if items == [] then [] else [RedactItem(tb, items[0])] + RedactFieldItems(tb, items[1..])
  }

  function RedactDataEntry(tb: Tables, key: string, v: Json): Json {
    if key == "fields" && v.Arr? then Arr(RedactFieldItems(tb, v.items)) else Redact(tb, v)
  }

  function RedactData(tb: Tables, data: Json): Json {
    if data.Obj? then Obj(RedactWith(tb, data.fields, (key, v) => RedactDataEntry(tb, key, v))) else Redact(tb, data)
  }

  function RedactEnvelopeEntry(tb: Tables, key: string, v: Json): Json {
    if key == "data" then RedactData(tb, v) else Redact(tb, v)
  }

  function RedactPayload(tb: Tables, payload: seq<Field>): seq<Field> {
    if IsEnvelope(payload) then RedactWith(tb, payload, (key, v) => RedactEnvelopeEntry(tb, key, v))
    else RedactWith(tb, payload, (key, v) => RedactDataEntry(tb, key, v))
  }

  /** Drop the entries under sensitive keys and change the others. */
  function RedactWith(tb: Tables, fields: seq<Field>, change: (string, Json) -> Json): seq<Field> {
    if fields == [] then []
    else
      (if tb.isSensitive(fields[0].key) then [] else [Field(fields[0].key, change(fields[0].key, fields[0].value))])
      + RedactWith(tb, fields[1..], change)
  }

  lemma {:induction false} RedactFieldsIsRedactWith(tb: Tables, fields: seq<Field>)
    ensures RedactFields(tb, fields) == RedactWith(tb, fields, (_, v) => Redact(tb, v))
  {
    if fields != [] {
      RedactFieldsIsRedactWith(tb, fields[1..]);
    }
  }

  lemma {:induction false} GetOfRedacted(tb: Tables, fields: seq<Field>, change: (string, Json) -> Json, key: string)
    requires !tb.isSensitive(key) && change(key, Null) == Null
    ensures Get(RedactWith(tb, fields, change), key) == change(key, Get(fields, key))
    ensures Has(RedactWith(tb, fields, change), key) <==> Has(fields, key)
  {
    if fields != [] {
      GetOfRedacted(tb, fields[1..], change, key);
      var rest := RedactWith(tb, fields[1..], change);
      HasOfRest(fields, key);
      if !tb.isSensitive(fields[0].key) {
        var first := Field(fields[0].key, change(fields[0].key, fields[0].value));
        assert RedactWith(tb, fields, change) == [first] + rest && ([first] + rest)[1..] == rest;
        HasOfRest([first] + rest, key);
      } else {
        assert RedactWith(tb, fields, change) == rest;
      }
    }
  }

  lemma HasOfRest(fields: seq<Field>, key: string)
    requires fields != []
    ensures Has(fields, key) <==> fields[0].key == key || Has(fields[1..], key)
  {
    if i :| 0 <= i < |fields| && fields[i].key == key {
      if i > 0 {
        assert fields[1..][i - 1].key == key;
      }
    }
    if i :| 0 <= i < |fields[1..]| && fields[1..][i].key == key {
      assert fields[i + 1].key == key;
    }
  }

  lemma GetOfRedactedFields(tb: Tables, fields: seq<Field>, key: string)
    requires !tb.isSensitive(key)
    ensures Get(RedactFields(tb, fields), key) == Redact(tb, Get(fields, key))
  {
    RedactFieldsIsRedactWith(tb, fields);
    GetOfRedacted(tb, fields, (_, v) => Redact(tb, v), key);
  }

  // ---- The lines of the redacted value ----

  lemma RedactingKeepsValue(tb: Tables, v: Json)
    ensures SafeValue(tb, Redact(tb, v)) == SafeValue(tb, v)
  {
  }

  lemma {:induction false} RedactingKeepsPairs(tb: Tables, fields: seq<Field>)
    ensures Pairs(tb, RedactFields(tb, fields)) == Pairs(tb, fields)
  {
    hide SafeValue, SafeInline, KeyLabel;
    if fields != [] {
      RedactingKeepsPairs(tb, fields[1..]);
      RedactingKeepsValue(tb, fields[0].value);
      if !tb.isSensitive(fields[0].key) {
        var first := [Field(fields[0].key, Redact(tb, fields[0].value))];
        assert RedactFields(tb, fields) == first + RedactFields(tb, fields[1..]);
        assert (first + RedactFields(tb, fields[1..]))[1..] == RedactFields(tb, fields[1..]);
      } else {
        assert RedactFields(tb, fields) == RedactFields(tb, fields[1..]);
        assert Pairs(tb, fields) == Pairs(tb, fields[1..]);
      }
    }
  }

  lemma {:induction false} RedactingKeepsItems(tb: Tables, items: seq<Json>, index: nat)
    ensures ItemsLines(tb, RedactItems(tb, items), index) == ItemsLines(tb, items, index)
  {
    if items != [] {
      var rest := RedactItems(tb, items[1..]);
      RedactingKeepsItems(tb, items[1..], index + 1);
      RedactingKeepsValue(tb, items[0]);
      if items[0].Obj? {
        RedactingKeepsPairs(tb, items[0].fields);
      }
      assert ([Redact(tb, items[0])] + rest)[1..] == rest;
      hide SafeValue, SafeInline, KeyLabel, Join, Pairs;
    }
  }

  lemma {:induction false} RedactItemsTakes(tb: Tables, items: seq<Json>, n: nat)
    ensures AtMost(RedactItems(tb, items), n) == RedactItems(tb, AtMost(items, n))
  {
    if items != [] && n > 0 {
      RedactItemsTakes(tb, items[1..], n - 1);
      var rest := RedactItems(tb, items[1..]);
      assert AtMost(items, n) == [items[0]] + AtMost(items[1..], n - 1);
      assert AtMost(items, n)[1..] == AtMost(items[1..], n - 1);
      assert AtMost([Redact(tb, items[0])] + rest, n) == [Redact(tb, items[0])] + AtMost(rest, n - 1);
    }
  }

  lemma RedactingKeepsList(tb: Tables, items: seq<Json>, caption: string, depth: nat)
    ensures ListLines(tb, RedactItems(tb, items), caption, depth) == ListLines(tb, items, caption, depth)
  {
    RedactItemsTakes(tb, items, MAX_ITEMS);
    RedactingKeepsItems(tb, AtMost(items, MAX_ITEMS), 1);
    hide SafeLabel, ItemsLines, AtMost;
  }

  lemma RedactFieldsStep(tb: Tables, fields: seq<Field>)
    requires fields != []
    ensures var rest := RedactFields(tb, fields[1..]);
            RedactFields(tb, fields)
            == if tb.isSensitive(fields[0].key) then rest else [Field(fields[0].key, Redact(tb, fields[0].value))] + rest
  {
    AppendNothing(RedactFields(tb, fields[1..]));
  }

  lemma DictLinesStep(tb: Tables, field: Field, rest: seq<Field>, prefix: string, depth: nat)
    requires depth < MAX_DEPTH
    ensures DictLines(tb, [field] + rest, prefix, depth) == EntryLines(tb, field, prefix, depth) + DictLines(tb, rest, prefix, depth)
  {
    assert ([field] + rest)[1..] == rest;
    hide EntryLines;
  }

  lemma {:induction false} RedactingKeepsDict(tb: Tables, fields: seq<Field>, prefix: string, depth: nat)
    ensures DictLines(tb, RedactFields(tb, fields), prefix, depth) == DictLines(tb, fields, prefix, depth)
    decreases if depth < MAX_DEPTH then MAX_DEPTH - depth else 0, |fields|
  {
    if depth < MAX_DEPTH && fields != [] {
      var rest := RedactFields(tb, fields[1..]);
      RedactFieldsStep(tb, fields);
      RedactingKeepsDict(tb, fields[1..], prefix, depth);
      if tb.isSensitive(fields[0].key) {
        SensitiveEntryHidden(tb, fields[0], prefix, depth);
        AppendNothing(DictLines(tb, fields[1..], prefix, depth));
      } else {
        RedactingKeepsEntry(tb, fields[0], prefix, depth);
        DictLinesStep(tb, Field(fields[0].key, Redact(tb, fields[0].value)), rest, prefix, depth);
      }
      DictLinesStep(tb, fields[0], fields[1..], prefix, depth);
      assert [fields[0]] + fields[1..] == fields;
      hide EntryLines, RedactFields, DictLines;
    }
  }

  lemma {:induction false} RedactingKeepsEntry(tb: Tables, field: Field, prefix: string, depth: nat)
    requires depth < MAX_DEPTH
    ensures EntryLines(tb, Field(field.key, Redact(tb, field.value)), prefix, depth) == EntryLines(tb, field, prefix, depth)
    decreases MAX_DEPTH - depth, 0
  {
    hide KeyLabel, SafeValue, ListLines, RedactFields, RedactItems;
    var caption := prefix + KeyLabel(tb, field.key);
    match field.value {
      case Obj(nested) => RedactingKeepsDict(tb, nested, caption + " / ", depth + 1);
      case Arr(items) => RedactingKeepsList(tb, items, caption, depth + 1);
      case v =>
    }
  }

  lemma EmptyValueShowsNothing(tb: Tables)
    requires tb.Lawful()
    ensures SafeValue(tb, Str("")) == ""
  {
    assert tb.al.Sanitize("") == "";
  }

  lemma SameSuffix<T>(a: seq<T>, b: seq<T>, suffix: seq<T>)
    ensures a + suffix == b + suffix ==> a == b
  {
    if a + suffix == b + suffix {
      assert (a + suffix)[..|a|] == a && (b + suffix)[..|b|] == b;
    }
  }

  /** An item that is shown keeps its line when its caption survives the redaction of its names. */
  predicate CaptionKept(tb: Tables, item: Json) {
    item.Obj? && !IsSensitiveItem(tb, item.fields) && SafeValue(tb, Get(item.fields, "value")) != "" ==>
      var redacted := RedactFields(tb, item.fields);
      !IsSensitiveItem(tb, redacted) && ItemLabel(tb, redacted) == ItemLabel(tb, item.fields)
  }

  lemma CaptionDecides(one: string, other: string, rendered: string)
    ensures [one + "：" + rendered] == [other + "：" + rendered] <==> one == other
  {
    SameSuffix(one, other, "：" + rendered);
    assert one + "：" + rendered == one + ("：" + rendered) && other + "：" + rendered == other + ("：" + rendered);
    assert [one + "：" + rendered][0] == one + "：" + rendered;
  }

  lemma FieldKeptExactly(tb: Tables, item: Json)
    requires tb.Lawful()
    ensures FieldLines(tb, RedactItem(tb, item)) == FieldLines(tb, item) <==> CaptionKept(tb, item)
    ensures |FieldLines(tb, RedactItem(tb, item))| <= |FieldLines(tb, item)|
  {
    if item.Obj? {
      var fields := item.fields;
      if IsSensitiveItem(tb, fields) {
        EmptyValueShowsNothing(tb);
        hide IsSensitiveItem, ItemLabel, SafeValue, RedactFields;
      } else {
        GetOfRedactedFields(tb, fields, "value");
        RedactingKeepsValue(tb, Get(fields, "value"));
        var rendered := SafeValue(tb, Get(fields, "value"));
        var one, other := ItemLabel(tb, fields), ItemLabel(tb, RedactFields(tb, fields));
        CaptionDecides(one, other, rendered);
        hide Get, SafeValue, ItemLabel, RedactFields, IsSensitiveItem;
      }
    }
  }

  /** The lines of all items are those of the redacted items exactly when every caption is kept. */
  lemma {:induction false} FieldsKeptExactly(tb: Tables, items: seq<Json>)
    requires tb.Lawful()
    ensures FieldsLines(tb, RedactFieldItems(tb, items)) == FieldsLines(tb, items)
       <==> forall item | item in items :: CaptionKept(tb, item)
    ensures |FieldsLines(tb, RedactFieldItems(tb, items))| <= |FieldsLines(tb, items)|
  {
    if items != [] {
      var rest := RedactFieldItems(tb, items[1..]);
      FieldKeptExactly(tb, items[0]);
      FieldsKeptExactly(tb, items[1..]);
      assert ([RedactItem(tb, items[0])] + rest)[1..] == rest;
      SameParts(FieldLines(tb, RedactItem(tb, items[0])), FieldLines(tb, items[0]),
                FieldsLines(tb, rest), FieldsLines(tb, items[1..]));
      assert forall item :: item in items <==> item == items[0] || item in items[1..];
      hide FieldLines, RedactItem, CaptionKept;
    }
  }

  lemma SameParts<T>(a: seq<T>, b: seq<T>, c: seq<T>, d: seq<T>)
    requires |a| <= |b| && |c| <= |d|
    ensures a + c == b + d <==> a == b && c == d
  {
    if a + c == b + d {
      assert |a| == |b|;
      assert (a + c)[..|a|] == a && (b + d)[..|b|] == b && (a + c)[|a|..] == c && (b + d)[|b|..] == d;
    }
  }

  /** A name of an item is a scalar, or a container without sensitive keys: then the caption is kept. */
  ghost predicate CleanNames(tb: Tables, item: Json) {
    item.Obj? && !IsSensitiveItem(tb, item.fields) ==>
      forall key | key in {"name", "key", "label"} :: Redact(tb, Get(item.fields, key)) == Get(item.fields, key)
  }

  lemma CleanNamesKeepCaption(tb: Tables, item: Json)
    requires tb.Lawful() && CleanNames(tb, item)
    ensures CaptionKept(tb, item) && FieldLines(tb, RedactItem(tb, item)) == FieldLines(tb, item)
  {
    if item.Obj? && !IsSensitiveItem(tb, item.fields) {
      GetOfRedactedFields(tb, item.fields, "name");
      GetOfRedactedFields(tb, item.fields, "key");
      GetOfRedactedFields(tb, item.fields, "label");
    }
    hide Get, SafeValue, SafeLabel, RedactFields, FieldLines;
    FieldKeptExactly(tb, item);
  }

  lemma {:induction false} RedactFieldItemsTakes(tb: Tables, items: seq<Json>, n: nat)
    ensures AtMost(RedactFieldItems(tb, items), n) == RedactFieldItems(tb, AtMost(items, n))
  {
    if items != [] && n > 0 {
      RedactFieldItemsTakes(tb, items[1..], n - 1);
      var rest := RedactFieldItems(tb, items[1..]);
      assert AtMost(items, n) == [items[0]] + AtMost(items[1..], n - 1);
      assert AtMost(items, n)[1..] == AtMost(items[1..], n - 1);
      assert AtMost([RedactItem(tb, items[0])] + rest, n) == [RedactItem(tb, items[0])] + AtMost(rest, n - 1);
    }
  }

  /** The items that are shown as fields. */
  function ShownItems(data: Json): seq<Json> {
    if data.Obj? && ShowsItems(data.fields)
    then AtMost(Get(data.fields, "fields").items, MAX_LINES) else []
  }

  /** A dict has each key once. */
  ghost predicate DistinctKeys(fields: seq<Field>) {
    forall i, j | 0 <= i < j < |fields| :: fields[i].key != fields[j].key
  }

  lemma {:induction false} WithoutItemsIsRedact(tb: Tables, fields: seq<Field>)
    requires forall i | 0 <= i < |fields| && fields[i].key == "fields" :: !fields[i].value.Arr?
    ensures RedactWith(tb, fields, (key, v) => RedactDataEntry(tb, key, v)) == RedactFields(tb, fields)
  {
    if fields != [] {
      assert forall i | 0 <= i < |fields[1..]| :: fields[1..][i] == fields[i + 1];
      WithoutItemsIsRedact(tb, fields[1..]);
      hide Redact;
    }
  }

  lemma DistinctGet(fields: seq<Field>, key: string)
    requires DistinctKeys(fields)
    ensures forall i | 0 <= i < |fields| && fields[i].key == key :: fields[i].value == Get(fields, key)
  {
    forall i | 0 <= i < |fields| && fields[i].key == key ensures fields[i].value == Get(fields, key) {
      GetAt(fields, i, key);
    }
  }

  /** The lines of a payload are those of the redacted one exactly when every caption shown is kept. */
  lemma LinesKeptExactly(tb: Tables, data: Json)
    requires tb.Lawful() && (data.Obj? ==> DistinctKeys(data.fields))
    ensures DataLines(tb, RedactData(tb, data)) == DataLines(tb, data) <==> CaptionsKept(tb, ShownItems(data))
  {
    hide SafeBlock, SafeValue, CaptionKept, FieldsLines, DictLines, ListLines, RedactWith, RedactFields, RedactItems,
      RedactFieldItems, Get, AtMost;
    match data {
      case Obj(fields) => ObjectLinesKeptExactly(tb, fields);
      case Arr(items) => RedactingKeepsList(tb, items, "", 0);
      case _ =>
    }
  }

  predicate CaptionsKept(tb: Tables, items: seq<Json>) {
    forall item | item in items :: CaptionKept(tb, item)
  }

  lemma ObjectLinesKeptExactly(tb: Tables, fields: seq<Field>)
    requires tb.Lawful() && DistinctKeys(fields)
    ensures DataLines(tb, RedactData(tb, Obj(fields))) == DataLines(tb, Obj(fields)) <==> CaptionsKept(tb, ShownItems(Obj(fields)))
  {
    hide SafeBlock, SafeValue, CaptionKept, FieldsLines, DictLines, RedactWith, RedactFields, RedactFieldItems, RedactItems, Get, AtMost;
    RedactedLines(tb, fields);
    if ShowsItems(fields) {
      FieldsKeptExactly(tb, ShownItems(Obj(fields)));
    } else if !IsText(fields) {
      DistinctGet(fields, "fields");
      WithoutItemsIsRedact(tb, fields);
      RedactingKeepsDict(tb, fields, "", 0);
    }
  }

  predicate ShowsItems(fields: seq<Field>) {
    !IsText(fields) && Get(fields, "fields").Arr?
  }

  /** What is shown of a dict and of the redacted one. */
  lemma RedactedLines(tb: Tables, fields: seq<Field>)
    requires tb.Lawful()
    ensures var redacted := RedactData(tb, Obj(fields));
            if IsText(fields) then DataLines(tb, redacted) == DataLines(tb, Obj(fields))
            else if ShowsItems(fields) then
              && DataLines(tb, Obj(fields)) == FieldsLines(tb, ShownItems(Obj(fields)))
              && DataLines(tb, redacted) == FieldsLines(tb, RedactFieldItems(tb, ShownItems(Obj(fields))))
            else DataLines(tb, redacted) == OrNothing(DictLines(tb, redacted.fields, "", 0))
  {
    hide SafeBlock, FieldsLines, DictLines, RedactWith, RedactFields, RedactFieldItems, RedactItems, Get, AtMost;
    var change := (key, v) => RedactDataEntry(tb, key, v);
    assert RedactData(tb, Obj(fields)) == Obj(RedactWith(tb, fields, change));
    GetOfRedacted(tb, fields, change, "text");
    GetOfRedacted(tb, fields, change, "fields");
    if ShowsItems(fields) {
      RedactFieldItemsTakes(tb, Get(fields, "fields").items, MAX_LINES);
    }
  }

  /** Each dict has distinct keys, as a Python dict does. */
  ghost predicate HasDistinctKeys(payload: seq<Field>) {
    DistinctKeys(payload) && (DataOf(payload).Obj? ==> DistinctKeys(DataOf(payload).fields))
  }

  /** Dicts have distinct keys, and every caption shown survives the redaction of its names. */
  ghost predicate Presentable(tb: Tables, payload: seq<Field>) {
    HasDistinctKeys(payload) && CaptionsKept(tb, ShownItems(DataOf(payload)))
  }

  lemma RedactedDataOf(tb: Tables, payload: seq<Field>)
    requires tb.Lawful()
    ensures DataOf(RedactPayload(tb, payload)) == RedactData(tb, DataOf(payload))
  {
    if IsEnvelope(payload) {
      var change := (key, v) => RedactEnvelopeEntry(tb, key, v);
      GetOfRedacted(tb, payload, change, "data");
      GetOfRedacted(tb, payload, change, "ok");
    } else {
      var change := (key, v) => RedactDataEntry(tb, key, v);
      GetOfRedacted(tb, payload, change, "data");
      GetOfRedacted(tb, payload, change, "ok");
    }
    hide RedactWith, RedactData, RedactFields, RedactItems, Has, Get;
  }

  /** The text is that of the payload without its sensitive data. */
  lemma FormattingIgnoresSensitiveData(tb: Tables, title: string, payload: seq<Field>)
    requires tb.Lawful() && Presentable(tb, payload)
    ensures Formatted(tb, title, RedactPayload(tb, payload)) == Formatted(tb, title, payload)
  {
    RedactedDataOf(tb, payload);
    LinesKeptExactly(tb, DataOf(payload));
    hide Finish, DataLines, RedactPayload, RedactData, ShownItems, DistinctKeys, CaptionsKept;
  }

  /** Payloads that differ only in sensitive data give the same text. */
  lemma SensitiveDataCannotBeTold(tb: Tables, title: string, one: seq<Field>, other: seq<Field>)
    requires tb.Lawful() && Presentable(tb, one) && Presentable(tb, other) && RedactPayload(tb, one) == RedactPayload(tb, other)
    ensures Formatted(tb, title, one) == Formatted(tb, title, other)
  {
    FormattingIgnoresSensitiveData(tb, title, one);
    FormattingIgnoresSensitiveData(tb, title, other);
    hide Formatted, RedactPayload, Presentable;
  }

  // ---- What redaction removes ----

  lemma {:induction false} KeysOfWithout(fields: seq<Field>, key: string)
    ensures forall f | f in WithoutKey(fields, key) :: f in fields && f.key != key
    ensures DistinctKeys(fields) ==> DistinctKeys(WithoutKey(fields, key))
  {
    if fields != [] {
      KeysOfWithout(fields[1..], key);
      DistinctTail(fields);
      var rest := WithoutKey(fields[1..], key);
      if fields[0].key != key {
        assert WithoutKey(fields, key) == [fields[0]] + rest;
        DistinctCons(fields[0], rest, fields);
      } else {
        assert WithoutKey(fields, key) == rest;
      }
    }
  }

  lemma DistinctTail(fields: seq<Field>)
    requires fields != []
    ensures DistinctKeys(fields) ==> DistinctKeys(fields[1..]) && forall f | f in fields[1..] :: f.key != fields[0].key
  {
    if DistinctKeys(fields) {
      forall i, j | 0 <= i < j < |fields[1..]| ensures fields[1..][i].key != fields[1..][j].key {
        assert fields[i + 1].key != fields[j + 1].key;
      }
    }
  }

  lemma DistinctCons(first: Field, rest: seq<Field>, fields: seq<Field>)
    requires fields != [] && fields[0].key == first.key
    requires DistinctKeys(fields) ==> DistinctKeys(rest) && forall f | f in rest :: exists g :: g in fields[1..] && g.key == f.key
    ensures DistinctKeys(fields) ==> DistinctKeys([first] + rest)
  {
    if DistinctKeys(fields) {
      DistinctTail(fields);
      forall j | 0 <= j < |rest| ensures rest[j].key != first.key {
        assert rest[j] in rest;
      }
    }
  }

  lemma {:induction false} KeysOfRedactWith(tb: Tables, fields: seq<Field>, change: (string, Json) -> Json)
    ensures forall f | f in RedactWith(tb, fields, change) :: exists g :: g in fields && g.key == f.key && !tb.isSensitive(g.key)
    ensures DistinctKeys(fields) ==> DistinctKeys(RedactWith(tb, fields, change))
  {
    if fields != [] {
      KeysOfRedactWith(tb, fields[1..], change);
      DistinctTail(fields);
      var rest := RedactWith(tb, fields[1..], change);
      if tb.isSensitive(fields[0].key) {
        assert RedactWith(tb, fields, change) == rest;
      } else {
        var first := Field(fields[0].key, change(fields[0].key, fields[0].value));
        assert RedactWith(tb, fields, change) == [first] + rest;
        assert fields[0] in fields;
        DistinctCons(first, rest, fields);
      }
    }
  }

  /** The redacted item is a dict if the item is, and the one thing it holds under `value`, when its
      name is sensitive, is the empty text. */
  lemma RedactedItemIsDict(tb: Tables, fields: seq<Field>)
    requires DistinctKeys(fields)
    ensures RedactItem(tb, Obj(fields)).Obj? && DistinctKeys(RedactItem(tb, Obj(fields)).fields)
    ensures IsSensitiveItem(tb, fields) ==>
              forall f | f in RedactItem(tb, Obj(fields)).fields && f.key == "value" :: f.value == Str("")
  {
    RedactFieldsIsRedactWith(tb, fields);
    KeysOfRedactWith(tb, fields, (_, v) => Redact(tb, v));
    var others := WithoutKey(fields, "value");
    KeysOfWithout(fields, "value");
    RedactFieldsIsRedactWith(tb, others);
    KeysOfRedactWith(tb, others, (_, v) => Redact(tb, v));
    hide RedactFields, RedactWith, WithoutKey, IsSensitiveItem;
    var redacted := RedactFields(tb, others);
    forall f | f in redacted ensures f.key != "value" {
      var g :| g in others && g.key == f.key && !tb.isSensitive(g.key);
    }
    forall j | 0 <= j < |redacted| ensures redacted[j].key != "value" {
      assert redacted[j] in redacted;
    }
  }

  lemma {:induction false} WithoutKeyIgnoresValue(fields: seq<Field>, j: nat, v: Json)
    requires j < |fields|
    ensures WithoutKey(fields[j := Field(fields[j].key, v)], fields[j].key) == WithoutKey(fields, fields[j].key)
    ensures forall key | key != fields[j].key :: Get(fields[j := Field(fields[j].key, v)], key) == Get(fields, key)
  {
    var changed := fields[j := Field(fields[j].key, v)];
    if j == 0 {
      assert changed[1..] == fields[1..];
    } else {
      assert changed[1..] == fields[1..][j - 1 := Field(fields[j].key, v)];
      WithoutKeyIgnoresValue(fields[1..], j - 1, v);
    }
  }

  /** Items that are the same but for the value of an item with a sensitive name. */
  ghost predicate SameButSecrets(tb: Tables, one: seq<Json>, other: seq<Json>) {
    && |one| == |other|
    && forall i | 0 <= i < |one| :: one[i] == other[i] || SameButSecret(tb, one[i], other[i])
  }

  ghost predicate SameButSecret(tb: Tables, one: Json, other: Json) {
    && one.Obj? && other.Obj? && IsSensitiveItem(tb, one.fields)
    && exists j: nat, v :: j < |one.fields| && one.fields[j].key == "value" && other.fields == one.fields[j := Field("value", v)]
  }

  lemma {:induction false} SecretsAreRedacted(tb: Tables, one: seq<Json>, other: seq<Json>)
    requires SameButSecrets(tb, one, other)
    ensures RedactFieldItems(tb, one) == RedactFieldItems(tb, other)
  {
    if one != [] {
      if one[0] != other[0] {
        var j: nat, v :| j < |one[0].fields| && one[0].fields[j].key == "value"
                         && other[0].fields == one[0].fields[j := Field("value", v)];
        WithoutKeyIgnoresValue(one[0].fields, j, v);
        assert IsSensitiveItem(tb, other[0].fields);
      }
      assert RedactItem(tb, one[0]) == RedactItem(tb, other[0]);
      forall i | 0 <= i < |one[1..]| ensures one[1..][i] == other[1..][i] || SameButSecret(tb, one[1..][i], other[1..][i]) {
        assert one[1..][i] == one[i + 1] && other[1..][i] == other[i + 1];
      }
      SecretsAreRedacted(tb, one[1..], other[1..]);
      hide RedactItem, SameButSecret;
    }
  }

  lemma {:induction false} RedactWithAt(tb: Tables, fields: seq<Field>, change: (string, Json) -> Json, j: nat, v: Json)
    requires j < |fields| && change(fields[j].key, v) == change(fields[j].key, fields[j].value)
    ensures RedactWith(tb, fields[j := Field(fields[j].key, v)], change) == RedactWith(tb, fields, change)
    ensures forall key :: Has(fields[j := Field(fields[j].key, v)], key) <==> Has(fields, key)
  {
    var changed := fields[j := Field(fields[j].key, v)];
    forall key ensures Has(changed, key) <==> Has(fields, key) {
      if i :| 0 <= i < |fields| && fields[i].key == key {
        assert changed[i].key == key;
      }
      if i :| 0 <= i < |changed| && changed[i].key == key {
        assert fields[i].key == key;
      }
    }
    if j == 0 {
      assert changed[1..] == fields[1..];
    } else {
      assert changed[1..] == fields[1..][j - 1 := Field(fields[j].key, v)];
      RedactWithAt(tb, fields[1..], change, j - 1, v);
    }
  }

  /** Dicts that are the same but for such values in their list of items. */
  ghost predicate SameButItems(tb: Tables, one: seq<Field>, other: seq<Field>) {
    exists f: nat, items ::
      f < |one| && one[f].key == "fields" && one[f].value.Arr? && other == one[f := Field("fields", Arr(items))]
      && SameButSecrets(tb, one[f].value.items, items)
  }

  /** Payloads that are the same but for such values, in their data or, without an envelope, at the top. */
  ghost predicate SameButSecretValues(tb: Tables, one: seq<Field>, other: seq<Field>) {
    || (!IsEnvelope(one) && SameButItems(tb, one, other))
    || exists p: nat, data ::
         p < |one| && one[p].key == "data" && one[p].value.Obj? && other == one[p := Field("data", Obj(data))]
         && SameButItems(tb, one[p].value.fields, data)
  }

  lemma ItemsLeaveNoTrace(tb: Tables, one: seq<Field>, other: seq<Field>)
    requires SameButItems(tb, one, other)
    ensures RedactWith(tb, one, (key, v) => RedactDataEntry(tb, key, v)) == RedactWith(tb, other, (key, v) => RedactDataEntry(tb, key, v))
    ensures forall key :: Has(one, key) <==> Has(other, key)
  {
    hide RedactWith, RedactFieldItems, SameButSecrets, Has;
    var f: nat, items :| f < |one| && one[f].key == "fields" && one[f].value.Arr? && other == one[f := Field("fields", Arr(items))]
                         && SameButSecrets(tb, one[f].value.items, items);
    SecretsAreRedacted(tb, one[f].value.items, items);
    RedactWithAt(tb, one, (key, v) => RedactDataEntry(tb, key, v), f, Arr(items));
  }

  /** The value of an item with a sensitive name leaves no trace in the redacted payload ... */
  lemma SecretValuesLeaveNoTrace(tb: Tables, one: seq<Field>, other: seq<Field>)
    requires SameButSecretValues(tb, one, other)
    ensures RedactPayload(tb, one) == RedactPayload(tb, other)
  {
    hide RedactWith, SameButItems;
    if !IsEnvelope(one) && SameButItems(tb, one, other) {
      ItemsLeaveNoTrace(tb, one, other);
    } else {
      var p: nat, data :| p < |one| && one[p].key == "data" && one[p].value.Obj? && other == one[p := Field("data", Obj(data))]
                          && SameButItems(tb, one[p].value.fields, data);
      ItemsLeaveNoTrace(tb, one[p].value.fields, data);
      RedactWithAt(tb, one, (key, v) => RedactEnvelopeEntry(tb, key, v), p, Obj(data));
      assert Has(one, "data") by {
        assert one[p].key == "data";
      }
    }
  }

  lemma SameKeysDistinct(one: seq<Field>, other: seq<Field>)
    requires |one| == |other| && forall i | 0 <= i < |one| :: one[i].key == other[i].key
    ensures DistinctKeys(one) ==> DistinctKeys(other)
  {
  }

  lemma ItemsStayPresentable(tb: Tables, one: seq<Field>, other: seq<Field>)
    requires SameButItems(tb, one, other) && DistinctKeys(one) && CaptionsKept(tb, ShownItems(Obj(one)))
    ensures DistinctKeys(other) && CaptionsKept(tb, ShownItems(Obj(other)))
  {
    var f: nat, items :| f < |one| && one[f].key == "fields" && one[f].value.Arr? && other == one[f := Field("fields", Arr(items))]
                         && SameButSecrets(tb, one[f].value.items, items);
    SameKeysDistinct(one, other);
    DistinctGet(one, "fields");
    DistinctGet(other, "fields");
    WithoutKeyIgnoresValue(one, f, Arr(items));
    assert Get(other, "text") == Get(one, "text");
    assert one[f].value == Get(one, "fields") && other[f].value == Get(other, "fields");
    hide Get, CaptionKept, DistinctKeys, SameButSecret;
    var before, after := AtMost(one[f].value.items, MAX_LINES), AtMost(items, MAX_LINES);
    assert |before| == |after|;
    forall i | !IsText(one) && 0 <= i < |after| ensures CaptionKept(tb, after[i]) {
      assert before[i] == one[f].value.items[i] && after[i] == items[i];
      if before[i] != after[i] {
        SecretItemKeepsCaption(tb, before[i], after[i]);
      } else {
        assert before[i] in ShownItems(Obj(one));
      }
    }
  }

  lemma SecretsStayPresentable(tb: Tables, one: seq<Field>, other: seq<Field>)
    requires SameButSecretValues(tb, one, other) && Presentable(tb, one)
    ensures Presentable(tb, other)
  {
    hide SameButItems, CaptionsKept, ShownItems;
    if !IsEnvelope(one) && SameButItems(tb, one, other) {
      ItemsLeaveNoTrace(tb, one, other);
      ItemsStayPresentable(tb, one, other);
    } else {
      var p: nat, data :| p < |one| && one[p].key == "data" && one[p].value.Obj? && other == one[p := Field("data", Obj(data))]
                          && SameButItems(tb, one[p].value.fields, data);
      SameKeysDistinct(one, other);
      DistinctGet(one, "data");
      DistinctGet(other, "data");
      assert Has(one, "data") && Has(other, "data") by {
        assert one[p].key == "data" && other[p].key == "data";
      }
      assert one[p].value == DataOf(one) && other[p].value == DataOf(other);
      ItemsStayPresentable(tb, one[p].value.fields, data);
    }
  }

  lemma SecretItemKeepsCaption(tb: Tables, one: Json, other: Json)
    requires SameButSecret(tb, one, other)
    ensures CaptionKept(tb, other)
  {
    var j: nat, v :| j < |one.fields| && one.fields[j].key == "value" && other.fields == one.fields[j := Field("value", v)];
    WithoutKeyIgnoresValue(one.fields, j, v);
    assert IsSensitiveItem(tb, other.fields);
  }

  /** ... and so none in the text. */
  lemma SecretValuesCannotBeTold(tb: Tables, title: string, one: seq<Field>, other: seq<Field>)
    requires tb.Lawful() && Presentable(tb, one) && SameButSecretValues(tb, one, other)
    ensures Formatted(tb, title, one) == Formatted(tb, title, other)
  {
    hide RedactPayload, Formatted, Presentable, SameButSecretValues;
    SecretValuesLeaveNoTrace(tb, one, other);
    SecretsStayPresentable(tb, one, other);
    SensitiveDataCannotBeTold(tb, title, one, other);
  }

  /** The condition on names is needed: a dict used as a label is printed whole, with what it holds
      under a sensitive key that `str` spells differently. */
  lemma ContainerLabelIsPrintedWhole(tb: Tables, secret: string, other: string)
    requires tb.Lawful() && tb.isSensitive(secret) && secret != "" && SafeLabel(tb, other) != SafeLabel(tb, DEFAULT_LABEL)
    requires tb.show(Obj([Field(secret, Null)])) == other && !tb.isSensitive(other)
    ensures var item := Obj([Field("label", Obj([Field(secret, Null)]))]);
            FieldLines(tb, RedactItem(tb, item)) != FieldLines(tb, item)
  {
    hide Get, SafeLabel, RedactFields, RedactItem, FieldLines;
    var named := Obj([Field(secret, Null)]);
    var fields := [Field("label", named)];
    NamesOfLabelled(named);
    GetOfRedactedFields(tb, fields, "label");
    GetOfRedactedFields(tb, fields, "name");
    GetOfRedactedFields(tb, fields, "key");
    OneSecretRedacted(tb, secret);
    FieldKeptExactly(tb, Obj(fields));
  }

  lemma OneSecretRedacted(tb: Tables, secret: string)
    requires tb.isSensitive(secret)
    ensures Redact(tb, Obj([Field(secret, Null)])) == Obj([])
  {
    assert [Field(secret, Null)][1..] == [] && RedactFields(tb, []) == [];
  }

  lemma {:induction false} SolidWord(al: Alphabet, s: string)
    requires s != "" && forall i | 0 <= i < |s| :: !al.isSpace(s[i])
    ensures al.Words(s) == [s]
  {
    SolidLength(al, s);
    assert s[..|s|] == s && s[|s|..] == "";
    assert al.Words(s[|s|..]) == [];
  }

  lemma {:induction false} SolidLength(al: Alphabet, s: string)
    requires forall i | 0 <= i < |s| :: !al.isSpace(s[i])
    ensures al.WordLength(s) == |s|
  {
    if s != "" {
      assert !al.isSpace(s[0]);
      forall i | 0 <= i < |s[1..]| ensures !al.isSpace(s[1..][i]) {
        assert s[1..][i] == s[i + 1];
      }
      SolidLength(al, s[1..]);
    }
  }

  /** Two short lines without line ends in them are the text. */
  lemma FinishOfTwo(tb: Tables, a: string, b: string)
    requires a != "" && b != "" && |a| + |b| < MAX_CHARS && tb.al.Trimmed(a + "\n" + b)
    requires forall c | c in a + b :: !tb.isBreak(c)
    ensures Finish(tb, [a] + [b]) == a + "\n" + b
  {
    var breaks := Alphabet(tb.isBreak, tb.al.isUnsafe);
    forall i | 0 <= i < |a| ensures !breaks.isSpace(a[i]) {
      assert (a + b)[i] == a[i];
    }
    forall i | 0 <= i < |b| ensures !breaks.isSpace(b[i]) {
      assert (a + b)[|a| + i] == b[i];
    }
    SolidWord(breaks, a);
    SolidWord(breaks, b);
    assert AllParts(tb, [b]) == [b] by {
      assert [b][1..] == [] && AllParts(tb, []) == [];
    }
    assert AllParts(tb, [a] + [b]) == [a, b] by {
      assert ([a] + [b])[1..] == [b];
    }
    assert Join("\n", [a, b]) == a + "\n" + b by {
      assert [a, b][1..] == [b] && Join("\n", [b]) == b;
    }
    tb.al.StripFixesTrimmed(a + "\n" + b);
    hide AllParts, Join, Alphabet.Strip;
  }

  /** The tables of the example: "k" is the sensitive key, and `str` of a dict shows its key in braces. */
  function SampleTables(): Tables {
    Tables((key: string) => key == "k",
           (v: Json) => if v.Str? then v.s else if v.Obj? && v.fields != [] then "{k}" else "{}",
           map[], Alphabet(c => c == ' ', c => c == '\t'), c => c == '\n')
  }

  lemma PlainInline(tb: Tables, text: string, limit: nat)
    requires tb.al.Lawful() && |text| <= limit && forall i | 0 <= i < |text| :: !tb.al.isSpace(text[i]) && !tb.al.isUnsafe(text[i])
    ensures SafeInline(tb, text, limit) == text
  {
    assert tb.al.Sanitize(text) == text;
    tb.al.CollapseFixesSingleSpaced(text);
  }

  function LabelledByDict(caption: Json): seq<Field> {
    [Field("data", Obj([Field("fields", Arr([Obj([Field("label", caption)])]))]))]
  }

  lemma GetOfOne(key: string, v: Json, other: string)
    ensures Get([Field(key, v)], other) == if key == other then v else Null
    ensures Has([Field(key, v)], other) <==> key == other
  {
    assert [Field(key, v)][1..] == [] && [Field(key, v)][0] == Field(key, v);
    assert Get([], other) == Null;
  }

  lemma NamesOfLabelled(caption: Json)
    ensures var item := [Field("label", caption)];
            Get(item, "label") == caption && Get(item, "name") == Null && Get(item, "key") == Null && Get(item, "value") == Null
  {
    assert |"label"| == 5 && |"name"| == 4 && |"key"| == 3 && "label"[0] == 'l' && "value"[0] == 'v';
    GetOfOne("label", caption, "label");
    GetOfOne("label", caption, "name");
    GetOfOne("label", caption, "key");
    GetOfOne("label", caption, "value");
    hide Get;
  }

  lemma DataOfLabelled(caption: Json)
    ensures DataOf(LabelledByDict(caption)) == Obj([Field("fields", Arr([Obj([Field("label", caption)])]))])
    ensures IsEnvelope(LabelledByDict(caption))
    ensures var data := [Field("fields", Arr([Obj([Field("label", caption)])]))];
            Get(data, "fields") == data[0].value && !IsText(data)
  {
    var items := Arr([Obj([Field("label", caption)])]);
    GetOfOne("data", Obj([Field("fields", items)]), "data");
    GetOfOne("fields", items, "fields");
    assert |"fields"| == 6 && |"text"| == 4;
    GetOfOne("fields", items, "text");
    hide Get, Has;
  }

  lemma LabelledLines(tb: Tables, caption: Json, shown: string)
    requires !IsSensitiveName(tb, caption) && shown == SafeLabel(tb, if Truthy(caption) then tb.show(caption) else DEFAULT_LABEL)
    ensures DataLines(tb, DataOf(LabelledByDict(caption))) == [shown + "：" + "-"]
  {
    NamesOfLabelled(caption);
    DataOfLabelled(caption);
    hide Get, SafeLabel, DataOf, IsText;
    var item := Obj([Field("label", caption)]);
    assert FieldLines(tb, item) == [shown + "：" + "-"];
    hide FieldLines;
    assert FieldsLines(tb, [item]) == [shown + "：" + "-"] by {
      assert [item][1..] == [] && FieldsLines(tb, []) == [];
    }
  }

  /** So the text itself can differ from that of the redacted payload. */
  lemma ContainerLabelChangesText()
    ensures var tb, payload := SampleTables(), LabelledByDict(Obj([Field("k", Null)]));
            tb.Lawful() && DistinctKeys(payload) && Formatted(tb, "t", payload) == "t\n" + ("{k}" + "：" + "-")
            && Formatted(tb, "t", RedactPayload(tb, payload)) == "t\n" + (DEFAULT_LABEL + "：" + "-")
  {
    SampleLaws();
    SampleRedaction();
    SampleText(Obj([Field("k", Null)]), "{k}");
    SampleText(Obj([]), DEFAULT_LABEL);
    hide Formatted, RedactPayload, SampleTables, Tables.Lawful;
  }

  lemma SampleLaws()
    ensures SampleTables().Lawful() && SampleTables().al.Lawful() && !SampleTables().isSensitive("{k}")
  {
    var tb := SampleTables();
    forall key | key in STRUCTURAL_KEYS ensures !tb.isSensitive(key) {
      assert |"k"| == 1;
    }
    assert |"{k}"| == 3 && |"k"| == 1;
  }

  lemma SampleRedaction()
    ensures RedactPayload(SampleTables(), LabelledByDict(Obj([Field("k", Null)]))) == LabelledByDict(Obj([]))
  {
    var tb, named := SampleTables(), Obj([Field("k", Null)]);
    SampleLaws();
    assert Redact(tb, named) == Obj([]) by {
      assert [Field("k", Null)][1..] == [] && RedactFields(tb, []) == [];
    }
    NamesOfLabelled(named);
    DataOfLabelled(named);
    var item := [Field("label", named)];
    assert !IsSensitiveItem(tb, item);
    OneEntryRedacted(tb, "label", named, (_, v) => Redact(tb, v));
    RedactFieldsIsRedactWith(tb, item);
    assert RedactItem(tb, Obj(item)) == Obj([Field("label", Obj([]))]);
    assert RedactFieldItems(tb, [Obj(item)]) == [Obj([Field("label", Obj([]))])] by {
      assert [Obj(item)][1..] == [] && RedactFieldItems(tb, []) == [];
    }
    hide RedactItem, RedactFieldItems, RedactWith, RedactFields, IsSensitiveItem, Get, Has;
    OneEntryRedacted(tb, "fields", Arr([Obj(item)]), (key, v) => RedactDataEntry(tb, key, v));
    OneEntryRedacted(tb, "data", Obj([Field("fields", Arr([Obj(item)]))]), (key, v) => RedactEnvelopeEntry(tb, key, v));
  }

  lemma OneEntryRedacted(tb: Tables, key: string, v: Json, change: (string, Json) -> Json)
    requires !tb.isSensitive(key)
    ensures RedactWith(tb, [Field(key, v)], change) == [Field(key, change(key, v))]
  {
    assert [Field(key, v)][1..] == [] && RedactWith(tb, [], change) == [];
  }

  lemma SampleText(caption: Json, shown: string)
    requires (caption == Obj([Field("k", Null)]) && shown == "{k}") || (caption == Obj([]) && shown == DEFAULT_LABEL)
    ensures Formatted(SampleTables(), "t", LabelledByDict(caption)) == "t\n" + (shown + "：" + "-")
  {
    var tb, payload := SampleTables(), LabelledByDict(caption);
    SampleLaws();
    var said := if Truthy(caption) then tb.show(caption) else DEFAULT_LABEL;
    assert said == shown && '\n' !in shown && |shown| < 80;
    PlainInline(tb, said, MAX_LABEL_CHARS);
    LabelledLines(tb, caption, shown);
    var line := shown + "：" + "-";
    SamplePlain(shown);
    hide DataLines, LabelledByDict, SafeLabel, Finish, SampleTables, Alphabet.Trimmed, SafeInline;
    FinishOfTwo(tb, "t", line);
    assert "t" + "\n" == "t\n";
  }

  lemma SamplePlain(shown: string)
    requires '\n' !in shown && |shown| < 80
    ensures var tb, line := SampleTables(), shown + "：" + "-";
            && tb.al.Trimmed("t" + "\n" + line) && (forall c | c in "t" + line :: !tb.isBreak(c))
            && line != "" && |line| < 100
  {
    var line := shown + "：" + "-";
    var text := "t" + "\n" + line;
    assert text[0] == 't' && text[|text| - 1] == '-';
    assert forall c | c in "t" + line :: c == 't' || c in shown || c == '：' || c == '-';
  }

  // ---- Early exits change nothing ----

  /** Either all the lines, or at least as many of them as will be kept. */
  ghost predicate CutAt(lines: seq<string>, spec: seq<string>) {
    lines <= spec && (lines == spec || |lines| >= MAX_LINES)
  }

  /** Lines that are not blank however `splitlines` cuts them. */
  ghost predicate Marked(lines: seq<string>) {
    forall l | l in lines :: '：' in l || '.' in l
  }

  /** What is rendered so far and what is still to come make the whole. */
  ghost predicate Pending<T>(lines: seq<T>, rest: seq<T>, whole: seq<T>) {
    lines + rest == whole
  }

  lemma Nothing<T>(whole: seq<T>)
    ensures Pending([], whole, whole)
    ensures forall lines: seq<T> | Pending(lines, [], whole) :: lines == whole
  {
    assert forall lines: seq<T> :: lines + [] == lines;
  }

  lemma Advance<T>(lines: seq<T>, more: seq<T>, entry: seq<T>, rest: seq<T>, whole: seq<T>)
    requires Pending(lines, entry + rest, whole) && more <= entry
    ensures lines + more <= whole && (more == entry ==> Pending(lines + more, rest, whole))
  {
    assert lines + more == (lines + (entry + rest))[..|lines| + |more|];
    assert lines + entry + rest == lines + (entry + rest);
  }

  lemma AppendNothing<T>(lines: seq<T>)
    ensures lines + [] == lines && [] + lines == lines
  {
  }

  method RenderPairs(tb: Tables, fields: seq<Field>) returns (pairs: seq<string>)
    ensures pairs == Pairs(tb, fields)
  {
    pairs := [];
    Nothing(Pairs(tb, fields));
    hide SafeValue, KeyLabel, Pending;
    for i := 0 to |fields|
      invariant Pending(pairs, Pairs(tb, fields[i..]), Pairs(tb, fields))
    {
      assert fields[i..][1..] == fields[i + 1..];
      var sensitive := tb.isSensitive(fields[i].key);
      ghost var entry := if sensitive then [] else ValueLine(tb, KeyLabel(tb, fields[i].key) + "=", fields[i].value);
      Advance(pairs, entry, entry, Pairs(tb, fields[i + 1..]), Pairs(tb, fields));
      AppendNothing(pairs);
      if sensitive {
        continue;
      }
      var rendered := SafeValue(tb, fields[i].value);
      if rendered != "" {
        pairs := pairs + [KeyLabel(tb, fields[i].key) + "=" + rendered];
      }
    }
  }

  /** What one item of a list adds. */
  method RenderItem(tb: Tables, item: Json, index: nat) returns (entry: seq<string>)
    ensures entry == ItemLines(tb, item, index)
  {
    hide SafeValue, Join, Pairs;
    entry := [];
    var number := tb.show(Int(index)) + ". ";
    match item {
      case Obj(fields) =>
        var pairs := RenderPairs(tb, fields);
        entry := [number + Join("，", pairs)];
      case Arr(_) =>
      case v =>
        var rendered := SafeValue(tb, v);
        if rendered != "" {
          entry := [number + rendered];
        }
    }
  }

  lemma ItemsFrom(tb: Tables, items: seq<Json>, i: nat)
    requires i <= |items|
    ensures ItemsLines(tb, items[i..], i + 1)
         == if i == |items| then [] else ItemLines(tb, items[i], i + 1) + ItemsLines(tb, items[i + 1..], i + 2)
    ensures items[0..] == items
  {
    hide ItemLines;
    assert i < |items| ==> items[i..][1..] == items[i + 1..];
  }

  lemma ListStarts(tb: Tables, items: seq<Json>, caption: string, depth: nat)
    ensures depth < MAX_DEPTH ==> Pending(if caption != "" then [SafeLabel(tb, caption) + "："] else [],
                                          ItemsLines(tb, AtMost(items, MAX_ITEMS), 1), ListLines(tb, items, caption, depth))
    ensures depth >= MAX_DEPTH ==> ListLines(tb, items, caption, depth) == []
  {
    hide ItemsLines, SafeLabel, AtMost;
  }

  method RenderList(tb: Tables, items: seq<Json>, caption: string, depth: nat) returns (lines: seq<string>)
    ensures CutAt(lines, ListLines(tb, items, caption, depth))
  {
    hide SafeLabel, Pending, ListLines, AtMost, ItemLines, ItemsLines;
    ListStarts(tb, items, caption, depth);
    if depth >= MAX_DEPTH {
      return [];
    }
    ghost var whole := ListLines(tb, items, caption, depth);
    var shown := AtMost(items, MAX_ITEMS);
    lines := if caption != "" then [SafeLabel(tb, caption) + "："] else [];
    Nothing(whole);
    ItemsFrom(tb, shown, 0);
    for i := 0 to |shown|
      invariant Pending(lines, ItemsLines(tb, shown[i..], i + 1), whole)
    {
      ItemsFrom(tb, shown, i);
      var entry := RenderItem(tb, shown[i], i + 1);
      Advance(lines, entry, entry, ItemsLines(tb, shown[i + 1..], i + 2), whole);
      lines := lines + entry;
      if |lines| >= MAX_LINES {
        return;
      }
    }
    ItemsFrom(tb, shown, |shown|);
  }

  method RenderEntry(tb: Tables, field: Field, prefix: string, depth: nat) returns (lines: seq<string>)
    requires depth < MAX_DEPTH && !tb.isSensitive(field.key)
    ensures CutAt(lines, EntryLines(tb, field, prefix, depth))
    decreases MAX_DEPTH - depth, 0
  {
    hide SafeValue, KeyLabel, ListLines, DictLines;
    var caption := KeyLabel(tb, field.key);
    match field.value {
      case Obj(nested) =>
        lines := RenderDict(tb, nested, prefix + caption + " / ", depth + 1);
      case Arr(items) =>
        lines := RenderList(tb, items, prefix + caption, depth + 1);
      case v =>
        var rendered := SafeValue(tb, v);
        lines := if rendered != "" then [prefix + caption + "：" + rendered] else [];
    }
  }

  method RenderDict(tb: Tables, fields: seq<Field>, prefix: string, depth: nat) returns (lines: seq<string>)
    ensures CutAt(lines, DictLines(tb, fields, prefix, depth))
    decreases if depth < MAX_DEPTH then MAX_DEPTH - depth else 0, 1
  {
    lines := [];
    if depth >= MAX_DEPTH {
      return;
    }
    ghost var whole := DictLines(tb, fields, prefix, depth);
    Nothing(whole);
    assert fields[0..] == fields;
    for i := 0 to |fields|
      invariant Pending(lines, DictLines(tb, fields[i..], prefix, depth), whole)
    {
      hide EntryLines, Pending;
      assert fields[i..][1..] == fields[i + 1..];
      ghost var entry, rest := EntryLines(tb, fields[i], prefix, depth), DictLines(tb, fields[i + 1..], prefix, depth);
      if tb.isSensitive(fields[i].key) {
        SensitiveEntryHidden(tb, fields[i], prefix, depth);
        Advance(lines, [], entry, rest, whole);
        AppendNothing(lines);
        continue;
      }
      var more := RenderEntry(tb, fields[i], prefix, depth);
      Advance(lines, more, entry, rest, whole);
      lines := lines + more;
      if |lines| >= MAX_LINES {
        return;
      }
    }
    assert fields[|fields|..] == [];
  }

  lemma SensitiveEntryHidden(tb: Tables, field: Field, prefix: string, depth: nat)
    requires depth < MAX_DEPTH && tb.isSensitive(field.key)
    ensures EntryLines(tb, field, prefix, depth) == []
  {
  }

  lemma {:induction false} ItemsGiveOneLineAtMost(tb: Tables, items: seq<Json>, index: nat)
    ensures |ItemsLines(tb, items, index)| <= |items|
  {
    if items != [] {
      ItemsGiveOneLineAtMost(tb, items[1..], index + 1);
    }
    hide SafeValue, Pairs, Join;
  }

  /** A list has too few lines for the early exit of its loop to be taken. */
  lemma ListLinesAreFew(tb: Tables, items: seq<Json>, caption: string, depth: nat)
    ensures |ListLines(tb, items, caption, depth)| <= MAX_ITEMS + 1 < MAX_LINES
  {
    ItemsGiveOneLineAtMost(tb, AtMost(items, MAX_ITEMS), 1);
    hide ItemsLines, SafeLabel;
  }

  // ---- Every line counts ----

  lemma {:induction false} MarkedHasPart(tb: Tables, line: string)
    requires tb.Lawful() && ('：' in line || '.' in line)
    ensures Parts(tb, line) != []
  {
    var i :| 0 <= i < |line| && !tb.isBreak(line[i]);
    SolidHasWord(Alphabet(tb.isBreak, tb.al.isUnsafe), line, i);
  }

  lemma {:induction false} SolidHasWord(al: Alphabet, s: string, i: nat)
    requires i < |s| && !al.isSpace(s[i])
    ensures al.Words(s) != []
  {
    if al.isSpace(s[0]) {
      assert s[1..][i - 1] == s[i];
      SolidHasWord(al, s[1..], i - 1);
    }
  }

  lemma MarkedTogether(a: seq<string>, b: seq<string>)
    requires Marked(a) && Marked(b)
    ensures Marked(a + b)
  {
  }

  lemma MarkedValue(tb: Tables, start: string, v: Json)
    requires '：' in start || '.' in start
    ensures Marked(ValueLine(tb, start, v))
  {
    hide SafeValue;
  }

  lemma {:induction false} MarkedItems(tb: Tables, items: seq<Json>, index: nat)
    ensures Marked(ItemsLines(tb, items, index))
  {
    if items != [] {
      MarkedItems(tb, items[1..], index + 1);
      var number := tb.show(Int(index)) + ". ";
      assert number[|number| - 2] == '.';
      MarkedValue(tb, number, items[0]);
      assert Marked(ItemLines(tb, items[0], index)) by {
        hide SafeValue, ValueLine, Pairs, Join, Marked;
        if items[0].Obj? {
          MarkedNumber(number, Join("，", Pairs(tb, items[0].fields)));
        } else {
          MarkedNone();
        }
      }
      hide ItemLines, Marked;
      MarkedTogether(ItemLines(tb, items[0], index), ItemsLines(tb, items[1..], index + 1));
    } else {
      MarkedNone();
    }
  }

  lemma MarkedNumber(number: string, rest: string)
    requires '：' in number || '.' in number
    ensures Marked([number + rest])
  {
  }

  lemma MarkedNone()
    ensures Marked([])
  {
  }

  lemma MarkedList(tb: Tables, items: seq<Json>, caption: string, depth: nat)
    ensures Marked(ListLines(tb, items, caption, depth))
  {
    MarkedItems(tb, AtMost(items, MAX_ITEMS), 1);
    MarkedNone();
    var start := SafeLabel(tb, caption) + "：";
    assert start[|start| - 1] == '：';
    MarkedNumber(start, "");
    assert start + "" == start;
    hide SafeLabel, ItemsLines, Marked;
    MarkedTogether(if caption != "" then [start] else [], ItemsLines(tb, AtMost(items, MAX_ITEMS), 1));
  }

  lemma {:induction false} MarkedDict(tb: Tables, fields: seq<Field>, prefix: string, depth: nat)
    ensures Marked(DictLines(tb, fields, prefix, depth))
    decreases if depth < MAX_DEPTH then MAX_DEPTH - depth else 0, |fields|, 1
  {
    if depth < MAX_DEPTH && fields != [] {
      MarkedEntry(tb, fields[0], prefix, depth);
      MarkedDict(tb, fields[1..], prefix, depth);
      MarkedTogether(EntryLines(tb, fields[0], prefix, depth), DictLines(tb, fields[1..], prefix, depth));
    }
    hide EntryLines;
  }

  lemma {:induction false} MarkedEntry(tb: Tables, field: Field, prefix: string, depth: nat)
    requires depth < MAX_DEPTH
    ensures Marked(EntryLines(tb, field, prefix, depth))
    decreases MAX_DEPTH - depth, 0, 0
  {
    MarkedNone();
    var caption := KeyLabel(tb, field.key);
    hide KeyLabel, SafeValue, ListLines, Marked, ValueLine;
    match field.value {
      case Obj(nested) => MarkedDict(tb, nested, prefix + caption + " / ", depth + 1);
      case Arr(items) => MarkedList(tb, items, prefix + caption, depth + 1);
      case v =>
        var start := prefix + caption + "：";
        assert start[|start| - 1] == '：';
        MarkedValue(tb, start, v);
    }
  }

  lemma {:induction false} AllPartsTogether(tb: Tables, a: seq<string>, b: seq<string>)
    ensures AllParts(tb, a + b) == AllParts(tb, a) + AllParts(tb, b)
  {
    hide Parts;
    if a == [] {
      assert a + b == b;
      assert AllParts(tb, a) + AllParts(tb, b) == AllParts(tb, b);
    } else {
      assert (a + b)[1..] == a[1..] + b;
      AllPartsTogether(tb, a[1..], b);
      assert AllParts(tb, a + b) == Parts(tb, a[0]) + (AllParts(tb, a[1..]) + AllParts(tb, b));
      assert AllParts(tb, a) + AllParts(tb, b) == Parts(tb, a[0]) + (AllParts(tb, a[1..]) + AllParts(tb, b));
    }
  }

  lemma {:induction false} AsManyPartsAsLines(tb: Tables, lines: seq<string>)
    requires tb.Lawful() && Marked(lines)
    ensures |AllParts(tb, lines)| >= |lines|
  {
    if lines != [] {
      MarkedHasPart(tb, lines[0]);
      assert lines[0] in lines;
      forall l | l in lines[1..] ensures l in lines {}
      AsManyPartsAsLines(tb, lines[1..]);
    }
  }

  lemma TakingFromLonger<T>(a: seq<T>, b: seq<T>, n: nat)
    requires |a| >= n
    ensures AtMost(a + b, n) == AtMost(a, n)
  {
    assert (a + b)[..n] == a[..n];
  }

  /** Leaving a loop with enough lines gives the text that all the lines would give. */
  lemma CutGivesSameText(tb: Tables, title: string, lines: seq<string>, spec: seq<string>)
    requires tb.Lawful() && CutAt(lines, spec) && Marked(spec)
    ensures Finish(tb, [title] + lines) == Finish(tb, [title] + spec)
  {
    if lines != spec {
      var rest := spec[|lines|..];
      assert spec == lines + rest;
      assert [title] + spec == ([title] + lines) + rest;
      AllPartsTogether(tb, [title] + lines, rest);
      AllPartsTogether(tb, [title], lines);
      assert forall l | l in lines :: l in spec;
      AsManyPartsAsLines(tb, lines);
      TakingFromLonger(AllParts(tb, [title] + lines), AllParts(tb, rest), MAX_LINES);
    }
    hide AllParts, Clip, Join, Alphabet.Strip;
  }

  // ---- The result stays within bounds ----

  function Newlines(s: string): nat {
    if s == "" then 0 else Newlines(s[1..]) + if s[0] == '\n' then 1 else 0
  }

  lemma {:induction false} NewlinesTogether(a: string, b: string)
    ensures Newlines(a + b) == Newlines(a) + Newlines(b)
  {
    if a == "" {
      assert a + b == b;
    } else {
      assert (a + b)[1..] == a[1..] + b;
      NewlinesTogether(a[1..], b);
    }
  }

  lemma PrefixHasFewerNewlines(s: string, n: nat)
    requires n <= |s|
    ensures Newlines(s[..n]) <= Newlines(s)
  {
    assert s == s[..n] + s[n..];
    NewlinesTogether(s[..n], s[n..]);
  }

  lemma {:induction false} StripHasFewerNewlines(al: Alphabet, s: string)
    ensures Newlines(al.Strip(s)) <= Newlines(s)
  {
    if s != "" && al.isSpace(s[0]) {
      StripHasFewerNewlines(al, s[1..]);
    } else {
      RStripHasFewerNewlines(al, s);
    }
  }

  lemma RStripHasFewerNewlines(al: Alphabet, s: string)
    ensures Newlines(al.RStrip(s)) <= Newlines(s)
  {
    var t := al.RStrip(s);
    assert s[..|t|] == t;
    PrefixHasFewerNewlines(s, |t|);
  }

  lemma {:induction false} NoNewlines(s: string)
    requires '\n' !in s
    ensures Newlines(s) == 0
  {
    if s != "" {
      assert forall c | c in s[1..] :: c in s;
      NoNewlines(s[1..]);
    }
  }

  lemma {:induction false} JoinedNewlines(parts: seq<string>)
    requires forall part | part in parts :: '\n' !in part
    ensures Newlines(Join("\n", parts)) <= if parts == [] then 0 else |parts| - 1
  {
    if parts != [] {
      NoNewlines(parts[0]);
      if |parts| > 1 {
        assert forall part | part in parts[1..] :: part in parts;
        JoinedNewlines(parts[1..]);
        NewlinesTogether(parts[0] + "\n", Join("\n", parts[1..]));
        NewlinesTogether(parts[0], "\n");
        assert Newlines("\n") == 1;
      }
    }
  }

  lemma {:induction false} PartsHaveNoNewlines(tb: Tables, lines: seq<string>)
    requires tb.Lawful()
    ensures forall part | part in AllParts(tb, lines) :: '\n' !in part
  {
    if lines != [] {
      Alphabet(tb.isBreak, tb.al.isUnsafe).WordsAreWords(lines[0]);
      PartsHaveNoNewlines(tb, lines[1..]);
    }
  }

  /** At most 1800 characters on at most 32 lines, whatever the title and the payload. */
  lemma FormattedIsBounded(tb: Tables, title: string, payload: seq<Field>)
    requires tb.Lawful()
    ensures |Formatted(tb, title, payload)| <= MAX_CHARS && Newlines(Formatted(tb, title, payload)) < MAX_LINES
  {
    hide DataLines;
    var lines := [title] + DataLines(tb, DataOf(payload));
    var parts := AtMost(AllParts(tb, lines), MAX_LINES);
    PartsHaveNoNewlines(tb, lines);
    forall part | part in parts ensures '\n' !in part {
      assert part in AllParts(tb, lines);
    }
    JoinedNewlines(parts);
    var text := tb.al.Strip(Join("\n", parts));
    StripHasFewerNewlines(tb.al, Join("\n", parts));
    ClippedNewlines(tb, text);
    hide AllParts, Join, Newlines, Alphabet.Strip, Clip, AtMost;
  }

  lemma ClippedNewlines(tb: Tables, text: string)
    ensures Newlines(Clip(tb, text)) <= Newlines(text)
  {
    if |text| > MAX_CHARS {
      var kept := text[..MAX_CHARS - 12];
      PrefixHasFewerNewlines(text, MAX_CHARS - 12);
      RStripHasFewerNewlines(tb.al, kept);
      NewlinesTogether(tb.al.RStrip(kept), TRUNCATED);
      NoNewlines(TRUNCATED);
      hide Newlines, Alphabet.RStrip;
    }
  }

  // ---- The formatter ----

  lemma FieldsFrom(tb: Tables, items: seq<Json>, i: nat)
    requires i <= |items|
    ensures FieldsLines(tb, items[i..]) == if i == |items| then [] else FieldLines(tb, items[i]) + FieldsLines(tb, items[i + 1..])
    ensures items[0..] == items
  {
    hide FieldLines;
    assert i < |items| ==> items[i..][1..] == items[i + 1..];
  }

  /** What one item of `fields` adds. */
  method RenderField(tb: Tables, item: Json) returns (entry: seq<string>)
    ensures entry == FieldLines(tb, item)
  {
    hide SafeValue, IsSensitiveItem, ItemLabel, Get;
    entry := [];
    if !item.Obj? {
      return;
    }
    if IsSensitiveItem(tb, item.fields) {
      return;
    }
    var rendered := SafeValue(tb, Get(item.fields, "value"));
    if rendered != "" {
      entry := [ItemLabel(tb, item.fields) + "：" + rendered];
    }
  }

  method RenderFields(tb: Tables, items: seq<Json>) returns (lines: seq<string>)
    ensures lines == FieldsLines(tb, AtMost(items, MAX_LINES))
  {
    hide Pending, AtMost, FieldsLines, FieldLines;
    lines := [];
    var shown := AtMost(items, MAX_LINES);
    Nothing(FieldsLines(tb, shown));
    FieldsFrom(tb, shown, 0);
    for i := 0 to |shown|
      invariant Pending(lines, FieldsLines(tb, shown[i..]), FieldsLines(tb, shown))
    {
      FieldsFrom(tb, shown, i);
      var entry := RenderField(tb, shown[i]);
      Advance(lines, entry, entry, FieldsLines(tb, shown[i + 1..]), FieldsLines(tb, shown));
      lines := lines + entry;
    }
    FieldsFrom(tb, shown, |shown|);
  }

  /** The lines of the data: all of them, or enough of them for the text to be the same. */
  method RenderData(tb: Tables, title: string, data: Json) returns (lines: seq<string>)
    requires tb.Lawful()
    ensures Finish(tb, lines) == Finish(tb, [title] + DataLines(tb, data))
  {
    hide Finish, DictLines, ListLines, FieldsLines, SafeBlock, SafeValue, Get;
    match data {
      case Obj(fields) =>
        if IsText(fields) {
          return [title] + [SafeBlock(tb, Get(fields, "text").s)];
        }
        if Get(fields, "fields").Arr? {
          var rendered := RenderFields(tb, Get(fields, "fields").items);
          return [title] + rendered;
        }
        var rendered := RenderDict(tb, fields, "", 0);
        MarkedDict(tb, fields, "", 0);
        CutGivesSameText(tb, title, rendered, DictLines(tb, fields, "", 0));
        return [title] + OrNothing(rendered);
      case Arr(items) =>
        var rendered := RenderList(tb, items, "", 0);
        MarkedList(tb, items, "", 0);
        CutGivesSameText(tb, title, rendered, ListLines(tb, items, "", 0));
        return [title] + OrNothing(rendered);
      case Null =>
        return [title] + [NOTHING_TO_SHOW];
      case Str(s) =>
        return [title] + if s == "" then [NOTHING_TO_SHOW] else [SafeValue(tb, data)];
      case _ =>
        return [title] + [SafeValue(tb, data)];
    }
  }

  method FormatGatewayResponse(tb: Tables, title: string, payload: seq<Field>) returns (result: string)
    requires tb.Lawful()
    ensures result == Formatted(tb, title, payload)
    ensures |result| <= MAX_CHARS && Newlines(result) < MAX_LINES
  {
    var lines := RenderData(tb, title, DataOf(payload));
    FormattedIsBounded(tb, title, payload);
    var resultLines := ResultLines(tb, lines);
    result := Clip(tb, tb.al.Strip(Join("\n", AtMost(resultLines, MAX_LINES))));
  }

  /** Stop as soon as there are enough parts. */
  method ResultLines(tb: Tables, lines: seq<string>) returns (parts: seq<string>)
    ensures AtMost(parts, MAX_LINES) == AtMost(AllParts(tb, lines), MAX_LINES)
  {
    parts := [];
    Nothing(AllParts(tb, lines));
    assert lines[0..] == lines;
    for i := 0 to |lines|
      invariant Pending(parts, AllParts(tb, lines[i..]), AllParts(tb, lines))
    {
      assert lines[i..][1..] == lines[i + 1..];
      hide Parts;
      ghost var rest := AllParts(tb, lines[i + 1..]);
      Advance(parts, Parts(tb, lines[i]), Parts(tb, lines[i]), rest, AllParts(tb, lines));
      parts := parts + Parts(tb, lines[i]);
      if |parts| >= MAX_LINES {
        TakingFromLonger(parts, rest, MAX_LINES);
        return;
      }
    }
    assert lines[|lines|..] == [];
  }
}
