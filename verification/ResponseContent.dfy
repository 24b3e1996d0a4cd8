/** What the formatter shows: every value at the end of a path of non-sensitive keys, in order, under
    the captions of the path, and nothing else. */
module ResponseContent {
  import opened Json
  import opened PyText
  import opened ResponseFormatting
  import SseStream

  // ---- Single values and captions ----

  predicate IsScalar(v: Json) {
    !v.Obj? && !v.Arr?
  }

  /** A text that needs no cleaning: single-spaced, without unsafe characters, and short enough. */
  predicate IsClean(tb: Tables, s: string, limit: nat) {
    s != "" && |s| <= limit && tb.al.SingleSpaced(s) && !tb.al.HasUnsafe(s)
  }

  lemma CleanInline(tb: Tables, s: string, limit: nat)
    requires tb.al.Lawful() && IsClean(tb, s, limit)
    ensures SafeInline(tb, s, limit) == s
  {
    assert tb.al.Sanitize(s) == s;
    tb.al.CollapseFixesSingleSpaced(s);
  }

  /** How scalars are shown: nothing at all as a dash, truth values in words, and clean texts, or numbers
      whose text is clean, as they are. */
  lemma ScalarsAreShown(tb: Tables, v: Json, s: string)
    requires tb.Lawful() && tb.al.Lawful()
    ensures SafeValue(tb, Null) == "-" && SafeValue(tb, Bool(true)) == "是" && SafeValue(tb, Bool(false)) == "否"
    ensures IsClean(tb, s, MAX_VALUE_CHARS) ==> SafeValue(tb, Str(s)) == s
    ensures (v.Int? || v.Float?) && IsClean(tb, tb.show(v), MAX_VALUE_CHARS) ==> SafeValue(tb, v) == tb.show(v)
  {
    if IsClean(tb, s, MAX_VALUE_CHARS) {
      CleanInline(tb, s, MAX_VALUE_CHARS);
    }
    if IsClean(tb, tb.show(v), MAX_VALUE_CHARS) {
      CleanInline(tb, tb.show(v), MAX_VALUE_CHARS);
    }
    hide SafeInline, IsClean;
  }

  /** The caption of a key: its label from the table, or the key itself, if that is clean. */
  lemma CaptionIsShown(tb: Tables, key: string)
    requires tb.al.Lawful()
    ensures var text := if key in tb.labels then tb.labels[key] else key;
            IsClean(tb, text, MAX_LABEL_CHARS) ==> KeyLabel(tb, key) == text
  {
    var text := if key in tb.labels then tb.labels[key] else key;
    if IsClean(tb, text, MAX_LABEL_CHARS) {
      CleanInline(tb, text, MAX_LABEL_CHARS);
    }
    hide SafeInline;
  }

  // ---- Lists ----

  function Flat<T>(parts: seq<seq<T>>): seq<T> {
    if parts == [] then [] else parts[0] + Flat(parts[1..])
  }

  /** What an entry of a dict in a list adds to its line. */
  function PairShown(tb: Tables, field: Field): seq<string> {
    if !tb.isSensitive(field.key) && IsScalar(field.value) && SafeValue(tb, field.value) != ""
    then [KeyLabel(tb, field.key) + "=" + SafeValue(tb, field.value)] else []
  }

  function PairsShown(tb: Tables, fields: seq<Field>): (parts: seq<seq<string>>)
    ensures |parts| == |fields| && forall j | 0 <= j < |fields| :: parts[j] == PairShown(tb, fields[j])
  {
    seq(|fields|, j requires 0 <= j < |fields| => PairShown(tb, fields[j]))
  }

  lemma {:induction false} PairsAreShown(tb: Tables, fields: seq<Field>)
    ensures Pairs(tb, fields) == Flat(PairsShown(tb, fields))
  {
    if fields != [] {
      PairsAreShown(tb, fields[1..]);
      PairStep(tb, fields[0]);
      hide PairShown, SafeValue, KeyLabel;
      assert PairsShown(tb, fields)[1..] == PairsShown(tb, fields[1..]);
    }
  }

  lemma PairStep(tb: Tables, field: Field)
    ensures PairShown(tb, field)
         == if tb.isSensitive(field.key) then [] else ValueLine(tb, KeyLabel(tb, field.key) + "=", field.value)
  {
    hide KeyLabel, SafeInline;
  }

  /** The line of the item with this number: a scalar, or the shown entries of a dict. */
  function ItemShown(tb: Tables, item: Json, number: nat): seq<string> {
    var start := tb.show(Int(number)) + ". ";
    if item.Obj? then [start + Join("，", Flat(PairsShown(tb, item.fields)))]
    else if item.Arr? || SafeValue(tb, item) == "" then []
    else [start + SafeValue(tb, item)]
  }

  function ItemsShown(tb: Tables, items: seq<Json>, first: nat): (parts: seq<seq<string>>)
    ensures |parts| == |items| && forall i | 0 <= i < |items| :: parts[i] == ItemShown(tb, items[i], first + i)
  {
    seq(|items|, i requires 0 <= i < |items| => ItemShown(tb, items[i], first + i))
  }

  lemma {:induction false} ItemsAreShown(tb: Tables, items: seq<Json>, first: nat)
    ensures ItemsLines(tb, items, first) == Flat(ItemsShown(tb, items, first))
  {
    if items != [] {
      ItemsAreShown(tb, items[1..], first + 1);
      if items[0].Obj? {
        PairsAreShown(tb, items[0].fields);
      }
      hide SafeValue, Pairs, PairsShown, Join;
      assert ItemLines(tb, items[0], first) == ItemShown(tb, items[0], first);
      hide ItemShown, ItemLines;
      assert ItemsShown(tb, items, first)[1..] == ItemsShown(tb, items[1..], first + 1);
    }
  }

  /** A heading, and the first ten items with their numbers. */
  function ListShown(tb: Tables, items: seq<Json>, caption: string): seq<string> {
    (if caption == "" then [] else [SafeLabel(tb, caption) + "："]) + Flat(ItemsShown(tb, AtMost(items, MAX_ITEMS), 1))
  }

  lemma ListIsShown(tb: Tables, items: seq<Json>, caption: string, depth: nat)
    ensures ListLines(tb, items, caption, depth) == if depth < MAX_DEPTH then ListShown(tb, items, caption) else []
  {
    ItemsAreShown(tb, AtMost(items, MAX_ITEMS), 1);
    hide ItemsLines, ItemsShown, Flat, SafeLabel, AtMost;
  }

  // ---- Dicts ----

  /** A path of at most `room` non-sensitive keys, by their positions, to a value that is no dict. */
  predicate IsPlace(tb: Tables, fields: seq<Field>, room: nat, path: seq<nat>)
    decreases |path|
  {
    && room > 0 && path != [] && path[0] < |fields| && !tb.isSensitive(fields[path[0]].key)
    && if fields[path[0]].value.Obj? then IsPlace(tb, fields[path[0]].value.fields, room - 1, path[1..]) else |path| == 1
  }

  function ValueAt(tb: Tables, fields: seq<Field>, room: nat, path: seq<nat>): Json
    requires IsPlace(tb, fields, room, path)
    decreases |path|
  {
    var v := fields[path[0]].value;
    if v.Obj? then ValueAt(tb, v.fields, room - 1, path[1..]) else v
  }

  /** The captions of the keys on the way. */
  function Captions(tb: Tables, fields: seq<Field>, room: nat, path: seq<nat>): (captions: seq<string>)
    requires IsPlace(tb, fields, room, path)
    ensures captions != []
    decreases |path|
  {
    var f := fields[path[0]];
    [KeyLabel(tb, f.key)] + if f.value.Obj? then Captions(tb, f.value.fields, room - 1, path[1..]) else []
  }

  /** The lines of the value at a place: one for a scalar, and those of a list unless it lies too deep. */
  function LinesAt(tb: Tables, fields: seq<Field>, room: nat, path: seq<nat>, prefix: string): seq<string>
    requires IsPlace(tb, fields, room, path)
  {
    var v := ValueAt(tb, fields, room, path);
    var caption := prefix + Join(" / ", Captions(tb, fields, room, path));
    if v.Arr? then if |path| < room then ListShown(tb, v.items, caption) else []
    else if IsScalar(v) && SafeValue(tb, v) != "" then [caption + "：" + SafeValue(tb, v)]
    else []
  }

  function AllLinesAt(tb: Tables, fields: seq<Field>, room: nat, places: seq<seq<nat>>, prefix: string): seq<string>
    requires forall p | p in places :: IsPlace(tb, fields, room, p)
  {
    if places == [] then [] else LinesAt(tb, fields, room, places[0], prefix) + AllLinesAt(tb, fields, room, places[1..], prefix)
  }

  /** The order of the document. */
  predicate Before(p: seq<nat>, q: seq<nat>)
    decreases |p|
  {
    p != [] && q != [] && (p[0] < q[0] || (p[0] == q[0] && Before(p[1..], q[1..])))
  }

  function Under(i: nat, places: seq<seq<nat>>): (all: seq<seq<nat>>)
    ensures |all| == |places| && forall k | 0 <= k < |places| :: all[k] == [i] + places[k]
  {
    seq(|places|, k requires 0 <= k < |places| => [i] + places[k])
  }

  /** All places from the entry at position `i` on. */
  function Places(tb: Tables, fields: seq<Field>, room: nat, i: nat): seq<seq<nat>>
    decreases room, |fields| - i
  {
    if room == 0 || i >= |fields| then [] else PlacesIn(tb, fields[i], room, i) + Places(tb, fields, room, i + 1)
  }

  function PlacesIn(tb: Tables, field: Field, room: nat, i: nat): seq<seq<nat>>
    requires room > 0
    decreases room, 0
  {
    if tb.isSensitive(field.key) then []
    else if field.value.Obj? then Under(i, Places(tb, field.value.fields, room - 1, 0))
    else [[i]]
  }

  lemma {:induction false} PlacesAreExact(tb: Tables, fields: seq<Field>, room: nat, i: nat, p: seq<nat>)
    ensures p in Places(tb, fields, room, i) <==> IsPlace(tb, fields, room, p) && p[0] >= i
    decreases room, |fields| - i
  {
    if room > 0 && i < |fields| {
      PlacesAreExact(tb, fields, room, i + 1, p);
      var v := fields[i].value;
      if v.Obj? {
        UnderHas(i, Places(tb, v.fields, room - 1, 0), p);
        if p != [] {
          PlacesAreExact(tb, v.fields, room - 1, 0, p[1..]);
        }
      }
      assert p in Places(tb, fields, room, i) <==> p in PlacesIn(tb, fields[i], room, i) || p in Places(tb, fields, room, i + 1);
      assert |p| == 1 && p[0] == i ==> p == [i];
      assert p in PlacesIn(tb, fields[i], room, i) <==> IsPlace(tb, fields, room, p) && p[0] == i;
    }
  }

  lemma UnderHas(i: nat, places: seq<seq<nat>>, p: seq<nat>)
    ensures p in Under(i, places) <==> p != [] && p[0] == i && p[1..] in places
  {
    if p != [] && p[0] == i && p[1..] in places {
      var k :| 0 <= k < |places| && places[k] == p[1..];
      assert Under(i, places)[k] == [i] + places[k] == p;
    }
    if p in Under(i, places) {
      var k :| 0 <= k < |places| && Under(i, places)[k] == p;
      assert p[1..] == places[k] && p[0] == i;
    }
  }

  ghost predicate InOrder(places: seq<seq<nat>>) {
    forall a, b | 0 <= a < b < |places| :: Before(places[a], places[b])
  }

  lemma {:induction false} PlacesAreInOrder(tb: Tables, fields: seq<Field>, room: nat, i: nat)
    ensures InOrder(Places(tb, fields, room, i))
    decreases room, |fields| - i
  {
    hide InOrder;
    if room == 0 || i >= |fields| {
      AtMostOneInOrder([]);
    } else {
      PlacesAreInOrder(tb, fields, room, i + 1);
      var first, rest := PlacesIn(tb, fields[i], room, i), Places(tb, fields, room, i + 1);
      forall p | p in rest ensures p != [] && p[0] > i {
        PlacesAreExact(tb, fields, room, i + 1, p);
      }
      if fields[i].value.Obj? {
        var inner := Places(tb, fields[i].value.fields, room - 1, 0);
        PlacesAreInOrder(tb, fields[i].value.fields, room - 1, 0);
        UnderInOrder(i, inner);
      }
      if |first| <= 1 {
        AtMostOneInOrder(first);
      }
      assert forall p | p in first :: p != [] && p[0] == i;
      InOrderTogether(first, rest, i);
    }
  }

  lemma AtMostOneInOrder(places: seq<seq<nat>>)
    requires |places| <= 1
    ensures InOrder(places)
  {
  }

  lemma UnderInOrder(i: nat, places: seq<seq<nat>>)
    requires InOrder(places)
    ensures InOrder(Under(i, places))
  {
    forall a, b | 0 <= a < b < |places| ensures Before([i] + places[a], [i] + places[b]) {
      assert ([i] + places[a])[1..] == places[a] && ([i] + places[b])[1..] == places[b];
    }
  }

  lemma InOrderTogether(first: seq<seq<nat>>, rest: seq<seq<nat>>, i: nat)
    requires InOrder(first) && InOrder(rest)
    requires (forall p | p in first :: p != [] && p[0] == i) && forall p | p in rest :: p != [] && p[0] > i
    ensures InOrder(first + rest)
  {
    var all := first + rest;
    forall a, b | 0 <= a < b < |all| ensures Before(all[a], all[b]) {
      if a < |first| <= b {
        assert all[a] in first && all[b] in rest;
      } else if |first| <= a {
        assert all[a] == rest[a - |first|] && all[b] == rest[b - |first|];
      }
    }
  }

  lemma {:induction false} LinesTogether(tb: Tables, fields: seq<Field>, room: nat, a: seq<seq<nat>>, b: seq<seq<nat>>, prefix: string)
    requires forall p | p in a || p in b :: IsPlace(tb, fields, room, p)
    ensures (forall p | p in a + b :: IsPlace(tb, fields, room, p))
         && AllLinesAt(tb, fields, room, a + b, prefix)
         == AllLinesAt(tb, fields, room, a, prefix) + AllLinesAt(tb, fields, room, b, prefix)
  {
    hide IsPlace, LinesAt;
    if a == [] {
      assert a + b == b;
    } else {
      LinesTogether(tb, fields, room, a[1..], b, prefix);
      assert (a + b)[1..] == a[1..] + b;
    }
  }

  lemma JoinedUnder(prefix: string, first: string, rest: seq<string>)
    requires rest != []
    ensures prefix + Join(" / ", [first] + rest) == prefix + first + " / " + Join(" / ", rest)
  {
    assert ([first] + rest)[1..] == rest;
  }

  /** The lines of a nested dict are those of its places, one caption further. */
  lemma LinesUnder(tb: Tables, fields: seq<Field>, room: nat, i: nat, p: seq<nat>, prefix: string)
    requires room > 0 && i < |fields| && !tb.isSensitive(fields[i].key) && fields[i].value.Obj?
    requires IsPlace(tb, fields[i].value.fields, room - 1, p)
    ensures IsPlace(tb, fields, room, [i] + p)
    ensures LinesAt(tb, fields, room, [i] + p, prefix)
         == LinesAt(tb, fields[i].value.fields, room - 1, p, prefix + KeyLabel(tb, fields[i].key) + " / ")
  {
    assert ([i] + p)[1..] == p;
    JoinedUnder(prefix, KeyLabel(tb, fields[i].key), Captions(tb, fields[i].value.fields, room - 1, p));
    hide KeyLabel, SafeValue, ListShown, Join;
  }

  lemma {:induction false} AllLinesUnder(tb: Tables, fields: seq<Field>, room: nat, i: nat, places: seq<seq<nat>>, prefix: string)
    requires room > 0 && i < |fields| && !tb.isSensitive(fields[i].key) && fields[i].value.Obj?
    requires forall p | p in places :: IsPlace(tb, fields[i].value.fields, room - 1, p)
    ensures (forall p | p in Under(i, places) :: IsPlace(tb, fields, room, p))
         && AllLinesAt(tb, fields, room, Under(i, places), prefix)
         == AllLinesAt(tb, fields[i].value.fields, room - 1, places, prefix + KeyLabel(tb, fields[i].key) + " / ")
  {
    hide IsPlace, LinesAt, KeyLabel;
    if places != [] {
      assert places[0] in places && forall p | p in places[1..] :: p in places;
      LinesUnder(tb, fields, room, i, places[0], prefix);
      AllLinesUnder(tb, fields, room, i, places[1..], prefix);
      assert Under(i, places)[1..] == Under(i, places[1..]);
      assert Under(i, places) == [[i] + places[0]] + Under(i, places[1..]);
    }
  }

  lemma PlacesArePlaces(tb: Tables, fields: seq<Field>, room: nat, i: nat)
    ensures forall p | p in Places(tb, fields, room, i) :: IsPlace(tb, fields, room, p)
  {
    forall p | p in Places(tb, fields, room, i) ensures IsPlace(tb, fields, room, p) {
      PlacesAreExact(tb, fields, room, i, p);
    }
  }

  lemma EntryLinesAtPlaces(tb: Tables, fields: seq<Field>, i: nat, prefix: string, depth: nat)
    requires depth < MAX_DEPTH && i < |fields| && !fields[i].value.Obj?
    ensures var room := MAX_DEPTH - depth; var places := PlacesIn(tb, fields[i], room, i);
            (forall p | p in places :: IsPlace(tb, fields, room, p))
            && EntryLines(tb, fields[i], prefix, depth) == AllLinesAt(tb, fields, room, places, prefix)
  {
    if !tb.isSensitive(fields[i].key) {
      var room := MAX_DEPTH - depth;
      var v := fields[i].value;
      var caption := KeyLabel(tb, fields[i].key);
      assert Captions(tb, fields, room, [i]) == [caption] && Join(" / ", [caption]) == caption;
      if v.Arr? {
        ListIsShown(tb, v.items, prefix + caption, depth + 1);
      }
      hide KeyLabel, SafeValue, ListShown, ListLines, Join;
      assert EntryLines(tb, fields[i], prefix, depth) == LinesAt(tb, fields, room, [i], prefix);
      hide LinesAt, EntryLines;
      OnePlace(tb, fields, room, [i], prefix);
    }
  }

  lemma OnePlace(tb: Tables, fields: seq<Field>, room: nat, p: seq<nat>, prefix: string)
    requires IsPlace(tb, fields, room, p)
    ensures AllLinesAt(tb, fields, room, [p], prefix) == LinesAt(tb, fields, room, p, prefix)
  {
    hide IsPlace, LinesAt;
    assert [p][1..] == [];
    AppendNothing(LinesAt(tb, fields, room, p, prefix));
  }

  /** The lines of a dict from one of its entries on are those of the places from there on. */
  lemma {:induction false} DictLinesAtPlaces(tb: Tables, fields: seq<Field>, i: nat, prefix: string, depth: nat)
    requires i <= |fields|
    ensures var room := if depth < MAX_DEPTH then MAX_DEPTH - depth else 0;
            (forall p | p in Places(tb, fields, room, i) :: IsPlace(tb, fields, room, p))
            && DictLines(tb, fields[i..], prefix, depth) == AllLinesAt(tb, fields, room, Places(tb, fields, room, i), prefix)
    decreases if depth < MAX_DEPTH then MAX_DEPTH - depth else 0, |fields| - i
  {
    hide IsPlace, AllLinesAt, EntryLines, DictLines, Places, PlacesIn;
    var room := if depth < MAX_DEPTH then MAX_DEPTH - depth else 0;
    PlacesArePlaces(tb, fields, room, i);
    PlacesStep(tb, fields, room, i);
    NoLines(tb, fields, room, prefix, depth);
    if room > 0 && i < |fields| {
      DictLinesAtPlaces(tb, fields, i + 1, prefix, depth);
      if fields[i].value.Obj? && !tb.isSensitive(fields[i].key) {
        var nested := fields[i].value.fields;
        DictLinesAtPlaces(tb, nested, 0, prefix + KeyLabel(tb, fields[i].key) + " / ", depth + 1);
        assert nested[0..] == nested;
        AllLinesUnder(tb, fields, room, i, Places(tb, nested, room - 1, 0), prefix);
        NestedLines(tb, fields[i], prefix, depth);
      } else if fields[i].value.Obj? {
        SensitiveEntryHidden(tb, fields[i], prefix, depth);
      } else {
        EntryLinesAtPlaces(tb, fields, i, prefix, depth);
      }
      LinesTogether(tb, fields, room, PlacesIn(tb, fields[i], room, i), Places(tb, fields, room, i + 1), prefix);
      assert fields[i..] == [fields[i]] + fields[i + 1..];
      DictLinesStep(tb, fields[i], fields[i + 1..], prefix, depth);
    }
  }

  lemma PlacesStep(tb: Tables, fields: seq<Field>, room: nat, i: nat)
    ensures Places(tb, fields, room, i)
         == if room == 0 || i >= |fields| then [] else PlacesIn(tb, fields[i], room, i) + Places(tb, fields, room, i + 1)
    ensures room > 0 && i < |fields| && fields[i].value.Obj? ==>
              PlacesIn(tb, fields[i], room, i)
              == if tb.isSensitive(fields[i].key) then [] else Under(i, Places(tb, fields[i].value.fields, room - 1, 0))
  {
  }

  lemma NoLines(tb: Tables, fields: seq<Field>, room: nat, prefix: string, depth: nat)
    ensures AllLinesAt(tb, fields, room, [], prefix) == []
    ensures DictLines(tb, [], prefix, depth) == []
    ensures depth >= MAX_DEPTH ==> forall rest :: DictLines(tb, rest, prefix, depth) == []
  {
  }

  lemma NestedLines(tb: Tables, field: Field, prefix: string, depth: nat)
    requires depth < MAX_DEPTH && field.value.Obj? && !tb.isSensitive(field.key)
    ensures EntryLines(tb, field, prefix, depth)
         == DictLines(tb, field.value.fields, prefix + KeyLabel(tb, field.key) + " / ", depth + 1)
  {
    hide DictLines, KeyLabel;
  }

  /** What is shown of a dict: the lines of all places in it, in the order of the document.  Each scalar
      stands under the captions of its path, joined by slashes; each list under these has a heading and
      the lines of its first ten items; and there is no other line. */
  lemma DictIsShown(tb: Tables, fields: seq<Field>) returns (places: seq<seq<nat>>)
    requires !IsText(fields) && !ShowsItems(fields)
    ensures InOrder(places) && forall p :: p in places <==> IsPlace(tb, fields, MAX_DEPTH, p)
    ensures DataLines(tb, Obj(fields)) == OrNothing(AllLinesAt(tb, fields, MAX_DEPTH, places, ""))
  {
    hide Places, IsPlace, InOrder, AllLinesAt, DictLines;
    places := Places(tb, fields, MAX_DEPTH, 0);
    PlacesAreInOrder(tb, fields, MAX_DEPTH, 0);
    forall p ensures p in places <==> IsPlace(tb, fields, MAX_DEPTH, p) {
      PlacesAreExact(tb, fields, MAX_DEPTH, 0, p);
      PlaceStarts(tb, fields, p);
    }
    DictLinesAtPlaces(tb, fields, 0, "", 0);
    assert fields[0..] == fields;
  }

  lemma PlaceStarts(tb: Tables, fields: seq<Field>, p: seq<nat>)
    ensures IsPlace(tb, fields, MAX_DEPTH, p) ==> p != []
  {
  }

  // ---- Lists and items of fields ----

  /** What is shown of a list. */
  lemma TopListIsShown(tb: Tables, items: seq<Json>)
    ensures DataLines(tb, Arr(items)) == OrNothing(Flat(ItemsShown(tb, AtMost(items, MAX_ITEMS), 1)))
  {
    ListIsShown(tb, items, "", 0);
    AppendNothing(Flat(ItemsShown(tb, AtMost(items, MAX_ITEMS), 1)));
    hide ListLines, ItemsShown, Flat, AtMost;
  }

  /** The line of an item of `fields`: none if one of its names is sensitive or its value shows nothing,
      and else its caption and its value. */
  function FieldShown(tb: Tables, item: Json): seq<string> {
    if item.Obj? && !IsSensitiveItem(tb, item.fields) && IsScalar(Get(item.fields, "value"))
       && SafeValue(tb, Get(item.fields, "value")) != ""
    then [NameShown(tb, item.fields) + "：" + SafeValue(tb, Get(item.fields, "value"))] else []
  }

  /** The first of its label, its name and its key that is there. */
  function NameShown(tb: Tables, fields: seq<Field>): string {
    var names := [Get(fields, "label"), Get(fields, "name"), Get(fields, "key"), Str(DEFAULT_LABEL)];
    SafeLabel(tb, tb.show(FirstTruthy(names)))
  }

  function FirstTruthy(names: seq<Json>): Json {
    if names == [] then Null else if Truthy(names[0]) then names[0] else FirstTruthy(names[1..])
  }

  function FieldsShown(tb: Tables, items: seq<Json>): (parts: seq<seq<string>>)
    ensures |parts| == |items| && forall i | 0 <= i < |items| :: parts[i] == FieldShown(tb, items[i])
  {
    seq(|items|, i requires 0 <= i < |items| => FieldShown(tb, items[i]))
  }

  lemma NameIsShown(tb: Tables, fields: seq<Field>)
    requires tb.Lawful()
    ensures NameShown(tb, fields) == ItemLabel(tb, fields)
  {
    var a, b, c, d := Get(fields, "label"), Get(fields, "name"), Get(fields, "key"), Str(DEFAULT_LABEL);
    assert [a, b, c, d][1..] == [b, c, d] && [b, c, d][1..] == [c, d] && [c, d][1..] == [d];
    hide Get, SafeLabel;
    assert Truthy(d) && FirstTruthy([d]) == d;
    assert FirstTruthy([c, d]) == if Truthy(c) then c else d;
    assert FirstTruthy([b, c, d]) == if Truthy(b) then b else FirstTruthy([c, d]);
    assert tb.show(d) == DEFAULT_LABEL;
  }

  lemma FieldIsShown(tb: Tables, item: Json)
    requires tb.Lawful()
    ensures FieldLines(tb, item) == FieldShown(tb, item)
  {
    if item.Obj? {
      NameIsShown(tb, item.fields);
    }
    hide NameShown, ItemLabel, IsSensitiveItem, Get, SafeInline;
  }

  lemma {:induction false} FieldsLinesAreShown(tb: Tables, items: seq<Json>)
    requires tb.Lawful()
    ensures FieldsLines(tb, items) == Flat(FieldsShown(tb, items))
  {
    if items != [] {
      FieldIsShown(tb, items[0]);
      FieldsLinesAreShown(tb, items[1..]);
      hide FieldLines, FieldShown;
      assert FieldsShown(tb, items)[1..] == FieldsShown(tb, items[1..]);
    }
  }

  /** What is shown of a dict with a list of items: the lines of the first 32, in order. */
  lemma ItemsOfFieldsAreShown(tb: Tables, fields: seq<Field>)
    requires tb.Lawful() && ShowsItems(fields)
    ensures DataLines(tb, Obj(fields)) == Flat(FieldsShown(tb, AtMost(Get(fields, "fields").items, MAX_LINES)))
  {
    FieldsLinesAreShown(tb, AtMost(Get(fields, "fields").items, MAX_LINES));
    hide FieldsLines, FieldsShown, Flat, AtMost, Get;
  }

  // ---- Texts ----

  lemma {:induction false} JoinOfSplit(s: string)
    ensures SplitLines(s) != [] && Join("\n", SplitLines(s)) == s
    decreases |s|
  {
    if s != "" {
      var rest := SplitLines(s[1..]);
      JoinOfSplit(s[1..]);
      if s[0] == '\n' {
        JoinFeed(rest);
        assert s == "\n" + s[1..];
      } else {
        JoinChar(s[0], rest);
        assert s == [s[0]] + s[1..];
      }
      hide Join;
    }
  }

  lemma JoinFeed(rest: seq<string>)
    requires rest != []
    ensures Join("\n", [""] + rest) == "\n" + Join("\n", rest)
  {
    assert ([""] + rest)[1..] == rest && "" + "\n" == "\n";
  }

  lemma JoinChar(c: char, rest: seq<string>)
    requires rest != []
    ensures Join("\n", [[c] + rest[0]] + rest[1..]) == [c] + Join("\n", rest)
  {
    var all := [[c] + rest[0]] + rest[1..];
    assert all[1..] == rest[1..];
    if |rest| > 1 {
      assert [c] + rest[0] + "\n" + Join("\n", rest[1..]) == [c] + (rest[0] + "\n" + Join("\n", rest[1..]));
    }
  }

  /** A line of a text that needs no cleaning. */
  predicate IsCleanLine(tb: Tables, line: string) {
    |line| <= MAX_VALUE_CHARS && !tb.al.HasUnsafe(line) && (line == "" || !tb.al.isSpace(line[|line| - 1]))
  }

  lemma {:induction false} CleanLinesStay(tb: Tables, lines: seq<string>)
    requires forall line | line in lines :: IsCleanLine(tb, line)
    ensures SafeBlockLines(tb, lines) == lines
  {
    if lines != [] {
      var line := lines[0];
      assert line in lines && forall l | l in lines[1..] :: l in lines;
      assert tb.al.Sanitize(line) == line;
      CleanLinesStay(tb, lines[1..]);
    }
  }

  /** A text of at most 32 clean lines, without carriage returns and blanks at its ends, is shown as it is. */
  lemma TextIsShown(tb: Tables, fields: seq<Field>)
    requires IsText(fields) && '\r' !in Get(fields, "text").s && tb.al.Trimmed(Get(fields, "text").s)
    requires var lines := SplitLines(Get(fields, "text").s);
             |lines| <= MAX_LINES && forall line | line in lines :: IsCleanLine(tb, line)
    ensures DataLines(tb, Obj(fields)) == [Get(fields, "text").s]
  {
    hide Get, SafeBlock, SplitLines, IsCleanLine, Alphabet.Trimmed;
    CleanBlockStays(tb, Get(fields, "text").s);
  }

  lemma CleanBlockStays(tb: Tables, text: string)
    requires '\r' !in text && tb.al.Trimmed(text)
    requires |SplitLines(text)| <= MAX_LINES && forall line | line in SplitLines(text) :: IsCleanLine(tb, line)
    ensures SafeBlock(tb, text) == text
  {
    hide SseStream.Normalize, SplitLines, SafeBlockLines, Join, Alphabet.Strip, Alphabet.Trimmed, IsCleanLine;
    SseStream.LineEndsBecomeFeeds(text, "");
    JoinOfSplit(text);
    CleanLinesStay(tb, SplitLines(text));
    tb.al.StripFixesTrimmed(text);
  }

  /** Nothing, or an empty text, is shown by one fixed line, and any other scalar by itself. */
  lemma ScalarDataAreShown(tb: Tables, data: Json)
    requires IsScalar(data)
    ensures DataLines(tb, data) == if data == Null || data == Str("") then [NOTHING_TO_SHOW] else [SafeValue(tb, data)]
  {
    hide SafeInline;
  }
}
