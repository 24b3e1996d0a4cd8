/** Bindings, their JSON snapshot, and the normalisation that makes the snapshot readable again. */
module BindingState {
  import opened Wrappers
  import opened PyText
  import opened Json

  const MAX_IDENTIFIER_LENGTH := 160
  const MAX_MEMBER_NAME_LENGTH := 200

  datatype Binding = Binding(groupId: string, memberId: string, boundBy: string, boundAt: string, memberName: string)

  type Bindings = map<string, Binding>

  datatype ValueError = ValueError

  /** `hasTimezone` says that `datetime.fromisoformat` accepts the text and finds a timezone. */
  datatype Env = Env(al: Alphabet, hasTimezone: string -> bool)

  function RequiredIdentifier(al: Alphabet, value: Json): Result<string, ValueError> {
    if !value.Str? then Err(ValueError)
    else
      var text := al.Strip(value.s);
      if text == "" || |text| > MAX_IDENTIFIER_LENGTH || al.HasUnsafe(text) then Err(ValueError) else Ok(text)
  }

  function MemberName(al: Alphabet, value: Json): Result<string, ValueError> {
    if value.Null? then Ok("")
    else if !value.Str? then Err(ValueError)
    else Ok(al.Strip(Take(al.Collapse(al.Sanitize(value.s)), MAX_MEMBER_NAME_LENGTH)))
  }

  function FromDict(env: Env, data: Json): Result<Binding, ValueError> {
    if !data.Obj? then Err(ValueError)
    else
      var boundAt := RequiredIdentifier(env.al, Get(data.fields, "bound_at"));
      if boundAt.Err? || !env.hasTimezone(boundAt.value) then Err(ValueError)
      else
        var groupId := RequiredIdentifier(env.al, Get(data.fields, "group_id"));
        var memberId := RequiredIdentifier(env.al, Get(data.fields, "member_id"));
        var boundBy := RequiredIdentifier(env.al, Get(data.fields, "bound_by"));
        var name := if Has(data.fields, "member_name") then MemberName(env.al, Get(data.fields, "member_name")) else Ok("");
        if groupId.Err? || memberId.Err? || boundBy.Err? || name.Err? then Err(ValueError)
        else Ok(Binding(groupId.value, memberId.value, boundBy.value, boundAt.value, name.value))
  }

  function AsDict(b: Binding): Json {
    Obj([Field("group_id", Str(b.groupId)), Field("member_id", Str(b.memberId)), Field("bound_by", Str(b.boundBy)),
         Field("bound_at", Str(b.boundAt)), Field("member_name", Str(b.memberName))])
  }

  predicate IsIdentifier(al: Alphabet, s: string) {
    s != "" && |s| <= MAX_IDENTIFIER_LENGTH && al.Trimmed(s) && !al.HasUnsafe(s)
  }

  predicate IsMemberName(al: Alphabet, s: string) {
    |s| <= MAX_MEMBER_NAME_LENGTH && al.SingleSpaced(s) && !al.HasUnsafe(s)
  }

  predicate WellFormed(env: Env, b: Binding) {
    && IsIdentifier(env.al, b.groupId) && IsIdentifier(env.al, b.memberId) && IsIdentifier(env.al, b.boundBy)
    && IsIdentifier(env.al, b.boundAt) && env.hasTimezone(b.boundAt)
    && IsMemberName(env.al, b.memberName)
  }

  /** Identifier normalisation is idempotent, and its fixed points are exactly the identifiers. */
  lemma IdentifierFixedPoints(al: Alphabet, value: Json, s: string)
    ensures RequiredIdentifier(al, value) == Ok(s) ==> IsIdentifier(al, s)
    ensures IsIdentifier(al, s) <==> RequiredIdentifier(al, Str(s)) == Ok(s)
  {
    if value.Str? {
      al.StripTrims(value.s);
    }
    al.StripTrims(s);
    if al.Trimmed(s) {
      al.StripFixesTrimmed(s);
    }
  }

  /** The value is a text that is the identifier, but for blanks around it. */
  ghost predicate ReadsAs(al: Alphabet, v: Json, s: string) {
    v.Str? && IsIdentifier(al, s) && exists a, b :: al.AllBlank(a) && al.AllBlank(b) && v.s == a + s + b
  }

  /** Which values are read as an identifier, and as which. */
  lemma IdentifierReadExactly(al: Alphabet, v: Json, s: string)
    ensures RequiredIdentifier(al, v) == Ok(s) <==> ReadsAs(al, v, s)
  {
    if v.Str? {
      al.StripExactly(v.s, s);
      al.StripTrims(v.s);
    }
    hide Alphabet.Strip, Alphabet.AllBlank;
  }

  /** A display name keeps its words, in order, if they fit, with one blank between them. */
  lemma NameKeepsWords(al: Alphabet, s: string)
    requires al.Lawful() && |al.Collapse(al.Sanitize(s))| <= MAX_MEMBER_NAME_LENGTH
    ensures MemberName(al, Str(s)).Ok? && al.Words(MemberName(al, Str(s)).value) == al.Words(al.Sanitize(s))
  {
    var full := al.Collapse(al.Sanitize(s));
    al.CollapseIsSingleSpaced(al.Sanitize(s));
    al.StripFixesTrimmed(full);
    al.CollapseKeepsWords(al.Sanitize(s));
    hide Alphabet.Strip, Alphabet.Collapse, Alphabet.Words;
  }

  /** Which dictionaries are read as which binding: the four identifiers in it are read, the time stamp has
      a timezone, and the name is read or absent; other entries do not matter. */
  lemma DictReadExactly(env: Env, fields: seq<Field>, b: Binding)
    ensures FromDict(env, Obj(fields)) == Ok(b) <==>
              && ReadsAs(env.al, Get(fields, "group_id"), b.groupId) && ReadsAs(env.al, Get(fields, "member_id"), b.memberId)
              && ReadsAs(env.al, Get(fields, "bound_by"), b.boundBy) && ReadsAs(env.al, Get(fields, "bound_at"), b.boundAt)
              && env.hasTimezone(b.boundAt)
              && (if Has(fields, "member_name") then MemberName(env.al, Get(fields, "member_name")) == Ok(b.memberName)
                  else b.memberName == "")
  {
    IdentifierReadExactly(env.al, Get(fields, "group_id"), b.groupId);
    IdentifierReadExactly(env.al, Get(fields, "member_id"), b.memberId);
    IdentifierReadExactly(env.al, Get(fields, "bound_by"), b.boundBy);
    IdentifierReadExactly(env.al, Get(fields, "bound_at"), b.boundAt);
    hide ReadsAs, RequiredIdentifier, MemberName, Get, Has;
  }

  lemma SanitizedCollapseIsSafe(al: Alphabet, s: string)
    requires al.Lawful()
    ensures !al.HasUnsafe(al.Collapse(al.Sanitize(s)))
  {
    var t := al.Sanitize(s);
    var ws := al.Words(t);
    al.WordsAreWords(t);
    JoinChars(ws);
    forall c | c in al.Collapse(t) ensures !al.isUnsafe(c) {
      if c != ' ' {
        var w :| w in ws && c in w;
        assert c in t;
      }
    }
  }

  /** The same for display names, through the blank-collapsing and the cut at 200 characters. */
  lemma MemberNameFixedPoints(al: Alphabet, value: Json, s: string)
    requires al.Lawful()
    ensures MemberName(al, value) == Ok(s) ==> IsMemberName(al, s)
    ensures IsMemberName(al, s) <==> MemberName(al, Str(s)) == Ok(s)
  {
    MemberNameIsNormal(al, value);
    MemberNameIsNormal(al, Str(s));
    if IsMemberName(al, s) {
      assert al.Sanitize(s) == s;
      al.CollapseFixesSingleSpaced(s);
      al.StripFixesTrimmed(s);
    }
  }

  lemma MemberNameIsNormal(al: Alphabet, value: Json)
    requires al.Lawful()
    ensures MemberName(al, value).Ok? ==> IsMemberName(al, MemberName(al, value).value)
  {
    if value.Str? {
      var full := al.Collapse(al.Sanitize(value.s));
      al.CollapseIsSingleSpaced(al.Sanitize(value.s));
      SanitizedCollapseIsSafe(al, value.s);
      var cut := Take(full, MAX_MEMBER_NAME_LENGTH);
      assert al.LStrip(cut) == cut;
      var name := al.RStrip(cut);
      assert name <= cut <= full;
      assert forall i | 0 <= i < |name| :: name[i] == full[i];
    }
  }

  /** A binding survives `asdict` followed by `from_dict` exactly when it is normalised, and
      whatever `from_dict` builds is normalised. */
  lemma BindingRoundTrip(env: Env, data: Json, b: Binding)
    requires env.al.Lawful()
    ensures FromDict(env, data) == Ok(b) ==> WellFormed(env, b)
    ensures WellFormed(env, b) <==> FromDict(env, AsDict(b)) == Ok(b)
  {
    FromDictNormalises(env, data, b);
    FromDictNormalises(env, AsDict(b), b);
    if WellFormed(env, b) {
      FieldsOfDict(b);
      IdentifierFixedPoints(env.al, Null, b.groupId);
      IdentifierFixedPoints(env.al, Null, b.memberId);
      IdentifierFixedPoints(env.al, Null, b.boundBy);
      IdentifierFixedPoints(env.al, Null, b.boundAt);
      MemberNameFixedPoints(env.al, Null, b.memberName);
    }
  }

  lemma FieldsOfDict(b: Binding)
    ensures Get(AsDict(b).fields, "group_id") == Str(b.groupId)
    ensures Get(AsDict(b).fields, "member_id") == Str(b.memberId)
    ensures Get(AsDict(b).fields, "bound_by") == Str(b.boundBy)
    ensures Get(AsDict(b).fields, "bound_at") == Str(b.boundAt)
    ensures Get(AsDict(b).fields, "member_name") == Str(b.memberName)
    ensures Has(AsDict(b).fields, "member_name")
  {
    var fields := AsDict(b).fields;
    assert fields[4].key == "member_name";
    assert "group_id"[0] == 'g' && "bound_by"[6] == 'b' && "bound_at"[6] == 'a';
    GetAt(fields, 0, "group_id");
    GetAt(fields, 1, "member_id");
    GetAt(fields, 2, "bound_by");
    GetAt(fields, 3, "bound_at");
    GetAt(fields, 4, "member_name");
  }

  lemma FromDictNormalises(env: Env, data: Json, b: Binding)
    requires env.al.Lawful()
    ensures FromDict(env, data) == Ok(b) ==> WellFormed(env, b)
  {
    if FromDict(env, data) == Ok(b) {
      IdentifierFixedPoints(env.al, Get(data.fields, "group_id"), b.groupId);
      IdentifierFixedPoints(env.al, Get(data.fields, "member_id"), b.memberId);
      IdentifierFixedPoints(env.al, Get(data.fields, "bound_by"), b.boundBy);
      IdentifierFixedPoints(env.al, Get(data.fields, "bound_at"), b.boundAt);
      MemberNameFixedPoints(env.al, Get(data.fields, "member_name"), b.memberName);
      assert env.al.SingleSpaced("");
    }
  }

  // ---- The snapshot document ----

  /** Python's order on `str`: by code point, a prefix first. */
  predicate Leq(a: string, b: string) {
    a == "" || (b != "" && (a[0] < b[0] || (a[0] == b[0] && Leq(a[1..], b[1..]))))
  }

  lemma {:induction false} LeqIsTotalOrder(a: string, b: string, c: string)
    ensures Leq(a, b) || Leq(b, a)
    ensures Leq(a, b) && Leq(b, a) ==> a == b
    ensures Leq(a, b) && Leq(b, c) ==> Leq(a, c)
    decreases |a|
  {
    if a != "" && b != "" {
      LeqIsTotalOrder(a[1..], b[1..], if c == "" then "" else c[1..]);
      if Leq(a, b) && Leq(b, a) {
        assert a == [a[0]] + a[1..] && b == [b[0]] + b[1..];
      }
    }
  }

  predicate IsLeast(k: string, keys: set<string>) {
    k in keys && forall x | x in keys :: Leq(k, x)
  }

  lemma LeastExists(keys: set<string>)
    requires keys != {}
    ensures exists k :: IsLeast(k, keys)
  {
    var k :| k in keys;
    LeqIsTotalOrder(k, k, k);
    if keys != {k} {
      LeastExists(keys - {k});
      var least :| IsLeast(least, keys - {k});
      LeqIsTotalOrder(k, least, k);
      if Leq(least, k) {
        assert IsLeast(least, keys);
      } else {
        forall x | x in keys ensures Leq(k, x) {
          LeqIsTotalOrder(k, least, x);
        }
        assert IsLeast(k, keys);
      }
    } else {
      assert IsLeast(k, keys);
    }
  }

  lemma LeastIsUnique(keys: set<string>)
    ensures forall j, k | IsLeast(j, keys) && IsLeast(k, keys) :: j == k
  {
    forall j, k | IsLeast(j, keys) && IsLeast(k, keys) ensures j == k {
      LeqIsTotalOrder(j, k, j);
    }
  }

  /** The keys in the order of `sorted(bindings.items())`. */
  function SortedKeys(keys: set<string>): seq<string> {
    if keys == {} then []
    else
      LeastExists(keys);
      LeastIsUnique(keys);
      var k :| IsLeast(k, keys);
      [k] + SortedKeys(keys - {k})
  }

  function Entries(m: Bindings, keys: seq<string>): seq<Field>
    requires forall k | k in keys :: k in m
  {
    if keys == [] then [] else [Field(keys[0], AsDict(m[keys[0]]))] + Entries(m, keys[1..])
  }

  function Serialize(m: Bindings): Json {
    SortedKeysAreKeys(m.Keys);
    Obj([Field("version", Int(1)), Field("bindings", Obj(Entries(m, SortedKeys(m.Keys))))])
  }

  lemma {:induction false} SortedKeysAreKeys(keys: set<string>)
    ensures forall k :: k in SortedKeys(keys) <==> k in keys
    ensures |SortedKeys(keys)| == |keys|
    ensures forall i, j | 0 <= i < j < |keys| :: Leq(SortedKeys(keys)[i], SortedKeys(keys)[j])
    decreases keys
  {
    if keys != {} {
      LeastExists(keys);
      LeastIsUnique(keys);
      var k :| IsLeast(k, keys);
      assert SortedKeys(keys) == [k] + SortedKeys(keys - {k});
      SortedKeysAreKeys(keys - {k});
    }
  }

  /** What a file holds: a JSON document, or bytes that `json.loads` refuses. */
  datatype Content = Document(doc: Json) | Garbage

  /** Python's `== 1` also holds of `True` and of `1.0`. */
  predicate EqualsOne(v: Json) {
    v == Int(1) || v == Bool(true) || v == Float(true, 1.0)
  }

  function ReadEntry(env: Env, entry: Field): Result<Binding, ValueError> {
    var key := RequiredIdentifier(env.al, Str(entry.key));
    var binding := FromDict(env, entry.value);
    if key.Err? || binding.Err? || binding.value.groupId != key.value then Err(ValueError) else binding
  }

  /** The dictionary after the first items have been stored; later items overwrite earlier ones. */
  function Collect(items: seq<Result<Binding, ValueError>>): Result<Bindings, ValueError> {
    if items == [] then Ok(map[])
    else
      var init := Collect(items[..|items| - 1]);
      var last := items[|items| - 1];
      if init.Err? || last.Err? then Err(ValueError) else Ok(init.value[last.value.groupId := last.value])
  }

  function ReadAll(env: Env, entries: seq<Field>): (items: seq<Result<Binding, ValueError>>)
    ensures |items| == |entries|
    ensures forall i | 0 <= i < |entries| :: items[i] == ReadEntry(env, entries[i])
  {
    seq(|entries|, i requires 0 <= i < |entries| => ReadEntry(env, entries[i]))
  }

  function Read(env: Env, content: Content): Result<Bindings, ValueError> {
    if content.Garbage? || !content.doc.Obj? || !EqualsOne(Get(content.doc.fields, "version")) then Err(ValueError)
    else
      var raw := Get(content.doc.fields, "bindings");
      if !raw.Obj? then Err(ValueError) else Collect(ReadAll(env, raw.fields))
  }

  method ReadSnapshot(env: Env, content: Content) returns (r: Result<Bindings, ValueError>)
    ensures r == Read(env, content)
  {
    hide EqualsOne, Get, ReadEntry, Collect;
    if content.Garbage? || !content.doc.Obj? || !EqualsOne(Get(content.doc.fields, "version")) {
      return Err(ValueError);
    }
    var raw := Get(content.doc.fields, "bindings");
    if !raw.Obj? {
      return Err(ValueError);
    }
    var bindings: Bindings := map[];
    ghost var items := ReadAll(env, raw.fields);
    CollectNothing();
    for i := 0 to |raw.fields|
      invariant Collect(items[..i]) == Ok(bindings)
    {
      assert items[..i + 1] == items[..i] + [items[i]];
      var binding := ReadEntry(env, raw.fields[i]);
      if binding.Err? {
        CollectStopsAtError(items, i);
        return Err(ValueError);
      }
      CollectStep(items[..i], items[i]);
      bindings := bindings[binding.value.groupId := binding.value];
    }
    assert items[..|items|] == items;
    return Ok(bindings);
  }

  lemma CollectNothing()
    ensures Collect([]) == Ok(map[])
  {
  }

  lemma CollectStep(items: seq<Result<Binding, ValueError>>, last: Result<Binding, ValueError>)
    requires Collect(items).Ok? && last.Ok?
    ensures Collect(items + [last]) == Ok(Collect(items).value[last.value.groupId := last.value])
  {
    assert (items + [last])[..|items|] == items;
  }

  lemma {:induction false} CollectStopsAtError(items: seq<Result<Binding, ValueError>>, i: nat)
    requires i < |items| && items[i].Err?
    ensures Collect(items) == Err(ValueError)
    decreases |items|
  {
    if i < |items| - 1 {
      CollectStopsAtError(items[..|items| - 1], i);
    }
  }

  ghost predicate WellFormedMap(env: Env, m: Bindings) {
    forall k | k in m :: m[k].groupId == k && WellFormed(env, m[k])
  }

  lemma {:induction false} CollectRebuilds(items: seq<Result<Binding, ValueError>>, m: Bindings, keys: seq<string>)
    requires |items| == |keys|
    requires forall i | 0 <= i < |keys| :: keys[i] in m && items[i] == Ok(m[keys[i]]) && m[keys[i]].groupId == keys[i]
    ensures Collect(items) == Ok(Restrict(m, keys))
  {
    if keys != [] {
      var n := |keys| - 1;
      CollectRebuilds(items[..n], m, keys[..n]);
      assert keys == keys[..n] + [keys[n]];
      assert Restrict(m, keys) == Restrict(m, keys[..n])[keys[n] := m[keys[n]]];
    }
  }

  ghost function Restrict(m: Bindings, keys: seq<string>): Bindings {
    map k | k in m && k in keys :: m[k]
  }

  lemma EntryReadsBack(env: Env, b: Binding)
    requires env.al.Lawful() && WellFormed(env, b)
    ensures ReadEntry(env, Field(b.groupId, AsDict(b))) == Ok(b)
  {
    BindingRoundTrip(env, Null, b);
    IdentifierFixedPoints(env.al, Null, b.groupId);
  }

  lemma {:induction false} EntryAt(m: Bindings, keys: seq<string>)
    requires forall k | k in keys :: k in m
    ensures |Entries(m, keys)| == |keys|
    ensures forall i | 0 <= i < |keys| :: Entries(m, keys)[i] == Field(keys[i], AsDict(m[keys[i]]))
  {
    if keys != [] {
      EntryAt(m, keys[1..]);
    }
  }

  /** Reading inverts writing: a map comes back from its own snapshot exactly when it is normalised. */
  lemma SnapshotRoundTrip(env: Env, m: Bindings)
    requires env.al.Lawful()
    ensures WellFormedMap(env, m) <==> Read(env, Document(Serialize(m))) == Ok(m)
  {
    if WellFormedMap(env, m) {
      SnapshotReadsBack(env, m);
    }
    if Read(env, Document(Serialize(m))) == Ok(m) {
      ReadIsWellFormed(env, Document(Serialize(m)));
    }
  }

  lemma SnapshotReadsBack(env: Env, m: Bindings)
    requires env.al.Lawful() && WellFormedMap(env, m)
    ensures Read(env, Document(Serialize(m))) == Ok(m)
  {
    SortedKeysAreKeys(m.Keys);
    var keys := SortedKeys(m.Keys);
    EntriesReadBack(env, m, keys);
    ReadsEntriesOfSnapshot(env, m);
  }

  lemma EntriesReadBack(env: Env, m: Bindings, keys: seq<string>)
    requires env.al.Lawful() && WellFormedMap(env, m)
    requires forall k :: k in keys <==> k in m
    ensures Collect(ReadAll(env, Entries(m, keys))) == Ok(m)
  {
    hide WellFormedMap, ReadEntry, Entries, Collect;
    ItemsReadBack(env, m, keys);
    CollectRebuilds(ReadAll(env, Entries(m, keys)), m, keys);
    assert Restrict(m, keys) == m;
  }

  lemma ItemsReadBack(env: Env, m: Bindings, keys: seq<string>)
    requires env.al.Lawful() && WellFormedMap(env, m)
    requires forall k | k in keys :: k in m
    ensures |Entries(m, keys)| == |keys|
    ensures forall i | 0 <= i < |keys| ::
      m[keys[i]].groupId == keys[i] && ReadAll(env, Entries(m, keys))[i] == Ok(m[keys[i]])
  {
    EntryAt(m, keys);
    forall i | 0 <= i < |keys|
      ensures m[keys[i]].groupId == keys[i] && ReadAll(env, Entries(m, keys))[i] == Ok(m[keys[i]])
    {
      assert keys[i] in m;
      EntryReadsBack(env, m[keys[i]]);
    }
  }

  lemma ReadsEntriesOfSnapshot(env: Env, m: Bindings)
    requires forall k | k in SortedKeys(m.Keys) :: k in m
    ensures Read(env, Document(Serialize(m))) == Collect(ReadAll(env, Entries(m, SortedKeys(m.Keys))))
  {
    var entries := Entries(m, SortedKeys(m.Keys));
    var fields := [Field("version", Int(1)), Field("bindings", Obj(entries))];
    assert |"version"| == 7 && |"bindings"| == 8;
    GetAt(fields, 0, "version");
    GetAt(fields, 1, "bindings");
    assert Serialize(m) == Obj(fields);
  }

  lemma {:induction false} CollectedFromItems(items: seq<Result<Binding, ValueError>>, k: string)
    requires Collect(items).Ok? && k in Collect(items).value
    ensures exists i | 0 <= i < |items| :: items[i] == Ok(Collect(items).value[k]) && items[i].value.groupId == k
  {
    var n := |items| - 1;
    if items[n].value.groupId != k {
      CollectedFromItems(items[..n], k);
      var i :| 0 <= i < n && items[..n][i] == Ok(Collect(items[..n]).value[k]) && items[..n][i].value.groupId == k;
      assert items[i] == items[..n][i];
    }
  }

  /** Whatever is read, the result is normalised and keyed by group. */
  lemma ReadIsWellFormed(env: Env, content: Content)
    requires env.al.Lawful()
    ensures Read(env, content).Ok? ==> WellFormedMap(env, Read(env, content).value)
  {
    hide WellFormed, ReadEntry, EqualsOne, Get, Collect;
    if Read(env, content).Ok? {
      var entries := Get(content.doc.fields, "bindings").fields;
      var items := ReadAll(env, entries);
      var m := Collect(items).value;
      forall k | k in m ensures m[k].groupId == k && WellFormed(env, m[k]) {
        CollectedFromItems(items, k);
        var i :| 0 <= i < |items| && items[i] == Ok(m[k]) && items[i].value.groupId == k;
        EntryIsWellFormed(env, entries[i]);
      }
    }
  }

  lemma EntryIsWellFormed(env: Env, entry: Field)
    requires env.al.Lawful()
    ensures ReadEntry(env, entry).Ok? ==> WellFormed(env, ReadEntry(env, entry).value)
  {
    if ReadEntry(env, entry).Ok? {
      FromDictNormalises(env, entry.value, FromDict(env, entry.value).value);
    }
  }
}
