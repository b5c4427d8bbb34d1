/**
 * The script node's bridge between JSON and Lua values: what a value becomes when it is sent
 * to a Lua script and read back.
 */
module LuaBridge {
  import opened Wrappers
  import opened JsonValue
  import Decimal

  /** `Other` stands for keys that are neither numbers nor strings. */
  datatype Key = Index(i: int) | Name(s: string) | Other(id: nat)

  /** `Foreign` stands for functions, userdata and threads. */
  datatype Lua =
    | Nil
    | LBool(b: bool)
    | LNumber(n: real)
    | LString(s: string)
    | Table(entries: map<Key, Lua>)
    | Foreign(id: nat)

  // ---------------------------------------------------------------------------------------
  // JSON to Lua
  // ---------------------------------------------------------------------------------------

  /** Assigning nil to a table slot erases it. */
  function Assign(entries: map<Key, Lua>, key: Key, value: Lua): map<Key, Lua> {
    if value == Nil then entries - {key} else entries[key := value]
  }

  ghost function IndexKeys(n: nat): (keys: set<Key>)
    ensures forall k :: k in keys <==> k.Index? && 1 <= k.i <= n
  {
    set i | 1 <= i <= n :: Index(i)
  }

  ghost function NameKeys(names: set<string>): (keys: set<Key>)
    ensures forall k :: k in keys <==> k.Name? && k.s in names
  {
    set s | s in names :: Name(s)
  }

  ghost function ToLua(value: Json): Lua
    decreases value, 1
  {
    match value
    case Null => Nil
    case Bool(b) => LBool(b)
    case Number(n) => LNumber(n)
    case String(s) => LString(s)
    case Array(_) => Table(ListEntries(SentItems(value)))
    case Object(_) => Table(MemberEntries(SentMembers(value)))
  }

  ghost function SentItems(value: Json): seq<Lua>
    requires value.Array?
    decreases value, 0
  {
    seq(|value.items|, i requires 0 <= i < |value.items| => ToLua(value.items[i]))
  }

  ghost function SentMembers(value: Json): map<string, Lua>
    requires value.Object?
    decreases value, 0
  {
    map k | k in value.members :: ToLua(value.members[k])
  }

  ghost function ListEntries(values: seq<Lua>): map<Key, Lua> {
    map k | k in IndexKeys(|values|) && values[k.i - 1] != Nil :: values[k.i - 1]
  }

  ghost function MemberEntries(values: map<string, Lua>): map<Key, Lua> {
    map k | k in NameKeys(values.Keys) && values[k.s] != Nil :: values[k.s]
  }

  method JsonToLua(value: Json) returns (out: Lua)
    ensures out == ToLua(value)
    decreases value
  {
    match value
    case Null => out := Nil;
    case Bool(b) => out := LBool(b);
    case Number(n) => out := LNumber(n);
    case String(s) => out := LString(s);
    case Array(items) => out := SendArray(value);
    case Object(members) => out := SendObject(value);
  }

  method SendArray(value: Json) returns (out: Lua)
    requires value.Array?
    ensures out == ToLua(value)
    decreases value, 0
  {
    var items := value.items;
    var table: map<Key, Lua> := map[];
    ghost var sent: seq<Lua> := [];
    var index := 1;
    while index <= |items|
      invariant 1 <= index <= |items| + 1
      invariant |sent| == index - 1 && forall i :: 0 <= i < |sent| ==> sent[i] == ToLua(items[i])
      invariant table == ListEntries(sent)
    {
      var item := JsonToLua(items[index - 1]);
      AppendEntry(sent, item);
      table := Assign(table, Index(index), item);
      sent := sent + [item];
      index := index + 1;
    }
    assert sent == SentItems(value);
    out := Table(table);
  }

  lemma AppendEntry(sent: seq<Lua>, item: Lua)
    ensures ListEntries(sent + [item]) == Assign(ListEntries(sent), Index(|sent| + 1), item)
  {
  }

  method SendObject(value: Json) returns (out: Lua)
    requires value.Object?
    ensures out == ToLua(value)
    decreases value, 0
  {
    var members := value.members;
    var table: map<Key, Lua> := map[];
    ghost var sent: map<string, Lua> := map[];
    var todo := members.Keys;
    while todo != {}
      invariant todo <= members.Keys && MembersSent(value, sent, todo)
      invariant table == MemberEntries(sent)
    {
      var k :| k in todo;
      var member := JsonToLua(members[k]);
      AddMember(value, sent, todo, k);
      todo := todo - {k};
      table := Assign(table, Name(k), member);
      sent := sent[k := member];
    }
    assert sent == SentMembers(value);
    out := Table(table);
  }

  ghost predicate MembersSent(value: Json, sent: map<string, Lua>, todo: set<string>)
    requires value.Object?
  {
    sent.Keys == value.members.Keys - todo && forall k :: k in sent ==> sent[k] == ToLua(value.members[k])
  }

  lemma AddMember(value: Json, sent: map<string, Lua>, todo: set<string>, k: string)
    requires value.Object? && k in todo && todo <= value.members.Keys && MembersSent(value, sent, todo)
    ensures var member := ToLua(value.members[k]);
            && MembersSent(value, sent[k := member], todo - {k})
            && MemberEntries(sent[k := member]) == Assign(MemberEntries(sent), Name(k), member)
  {
    hide ToLua, Assign, MemberEntries;
    AddEntry(sent, k, ToLua(value.members[k]));
  }

  lemma AddEntry(sent: map<string, Lua>, k: string, member: Lua)
    ensures MemberEntries(sent[k := member]) == Assign(MemberEntries(sent), Name(k), member)
  {
    hide ToLua;
  }

  // ---------------------------------------------------------------------------------------
  // Lua to JSON
  // ---------------------------------------------------------------------------------------

  /** The keys are exactly 1 to n. */
  ghost predicate ArrayKeys(entries: map<Key, Lua>) {
    entries.Keys == IndexKeys(|entries.Keys|)
  }

  function KeyText(k: Key): string {
    match k
    case Index(i) => if i < 0 then "-" + Decimal.Text(-i) else Decimal.Text(i)
    case Name(s) => s
    case Other(_) => ""
  }

  /** Values the bridge converts instead of throwing. */
  ghost predicate Readable(value: Lua) {
    match value
    case Foreign(_) => false
    case Table(entries) =>
      && (ArrayKeys(entries) || forall k :: k in entries ==> !k.Other?)
      && forall k :: k in entries ==> Readable(entries[k])
    case _ => true
  }

  /** The JSON values a Lua value may be read as. */
  ghost predicate Decodes(value: Lua, json: Json)
    decreases value, 1
  {
    match value
    case Nil => json == Null
    case LBool(b) => json == Bool(b)
    case LNumber(n) => json == Number(n)
    case LString(s) => json == String(s)
    case Foreign(_) => false
    case Table(entries) =>
      if ArrayKeys(entries) then json.Array? && DecodesItems(value, json.items)
      else json.Object? && DecodesMembers(value, json.members)
  }

  ghost predicate DecodesItems(value: Lua, items: seq<Json>)
    requires value.Table? && ArrayKeys(value.entries)
    decreases value, 0
  {
    && |items| == |value.entries.Keys|
    && forall i :: 1 <= i <= |items| ==> Decodes(value.entries[Index(i)], items[i - 1])
  }

  /** Every entry has a member under its key's text, and each member is read from such an entry. */
  ghost predicate DecodesMembers(value: Lua, members: map<string, Json>)
    requires value.Table?
    decreases value, 0
  {
    && (forall k :: k in value.entries ==> KeyText(k) in members)
    && (forall name :: name in members ==>
          exists k :: k in value.entries && KeyText(k) == name && Decodes(value.entries[k], members[name]))
  }

  /** Pigeonhole: n different positive indexes of which the greatest is n are 1 to n. */
  lemma {:induction false} FullRange(keys: set<Key>, n: nat)
    requires forall k :: k in keys ==> k.Index? && 1 <= k.i <= n
    ensures |keys| <= n
    ensures |keys| == n <==> keys == IndexKeys(n)
  {
    if n == 0 {
      assert keys == {};
      assert IndexKeys(0) == {};
    } else {
      var rest := keys - {Index(n)};
      FullRange(rest, n - 1);
      if Index(n) in keys {
        assert keys == rest + {Index(n)};
        assert IndexKeys(n) == IndexKeys(n - 1) + {Index(n)};
      } else {
        assert rest == keys;
        assert Index(n) in IndexKeys(n);
      }
    }
  }

  lemma ArrayKeysSize(entries: map<Key, Lua>, n: nat)
    requires entries.Keys == IndexKeys(n)
    ensures |entries.Keys| == n && ArrayKeys(entries)
  {
    FullRange(entries.Keys, n);
  }

  /** The scan that decides whether a table is an array, whatever order its entries come in. */
  method LooksLikeArray(entries: map<Key, Lua>) returns (isArray: bool, maxIndex: nat)
    ensures isArray <==> ArrayKeys(entries)
    ensures isArray ==> maxIndex == |entries.Keys|
  {
    maxIndex := 0;
    var count := 0;
    var todo := entries.Keys;
    ghost var seen := {};
    while todo != {}
      invariant seen + todo == entries.Keys && count + |todo| == |entries.Keys|
      invariant forall k :: k in seen ==> k.Index? && 1 <= k.i <= maxIndex
      invariant maxIndex == 0 || Index(maxIndex) in seen
    {
      var k :| k in todo;
      todo, seen := todo - {k}, seen + {k};
      count := count + 1;
      if !k.Index? || k.i <= 0 {
        BadKeyDecides(entries, k);
        return false, maxIndex;
      }
      maxIndex := if k.i > maxIndex then k.i else maxIndex;
    }
    ScanDecides(entries, maxIndex);
    isArray := maxIndex == count;
  }

  lemma ScanDecides(entries: map<Key, Lua>, maxIndex: nat)
    requires forall k :: k in entries ==> k.Index? && 1 <= k.i <= maxIndex
    requires maxIndex == 0 || Index(maxIndex) in entries
    ensures maxIndex == |entries.Keys| <==> ArrayKeys(entries)
  {
    var n := |entries.Keys|;
    FullRange(entries.Keys, maxIndex);
    assert maxIndex > 0 ==> Index(maxIndex) in entries.Keys;
  }

  lemma BadKeyDecides(entries: map<Key, Lua>, k: Key)
    requires k in entries && (!k.Index? || k.i <= 0)
    ensures !ArrayKeys(entries)
  {
    assert k !in IndexKeys(|entries.Keys|);
  }

  method LuaToJson(value: Lua) returns (r: Option<Json>)
    ensures r.Some? <==> Readable(value)
    ensures r.Some? ==> Decodes(value, r.value)
    decreases value
  {
    match value
    case Nil => r := Some(Null);
    case LBool(b) => r := Some(Bool(b));
    case LNumber(n) => r := Some(Number(n));
    case LString(s) => r := Some(String(s));
    case Foreign(_) => r := None;
    case Table(entries) =>
      var isArray, maxIndex := LooksLikeArray(entries);
      if isArray {
        r := ReadArray(value, maxIndex);
      } else {
        r := ReadObject(value);
      }
  }

  method ReadArray(value: Lua, maxIndex: nat) returns (r: Option<Json>)
    requires value.Table? && ArrayKeys(value.entries) && maxIndex == |value.entries.Keys|
    ensures r.Some? <==> Readable(value)
    ensures r.Some? ==> Decodes(value, r.value)
    decreases value, 0
  {
    var out: seq<Json> := [];
    var index := 1;
    while index <= maxIndex
      invariant 1 <= index <= maxIndex + 1 && |out| == index - 1
      invariant ItemsRead(value.entries, out)
    {
      assert Index(index) in value.entries;
      var item := LuaToJson(value.entries[Index(index)]);
      if item.None? {
        return None;
      }
      AppendRead(value.entries, out, item.value);
      out := out + [item.value];
      index := index + 1;
    }
    AllRead(value, out);
    r := Some(Array(out));
  }

  ghost predicate ItemsRead(entries: map<Key, Lua>, out: seq<Json>) {
    forall i :: 1 <= i <= |out| ==> Index(i) in entries && ItemRead(entries[Index(i)], out[i - 1])
  }

  ghost predicate ItemRead(value: Lua, json: Json) {
    Readable(value) && Decodes(value, json)
  }

  lemma AppendRead(entries: map<Key, Lua>, out: seq<Json>, item: Json)
    requires ItemsRead(entries, out) && Index(|out| + 1) in entries
    requires Readable(entries[Index(|out| + 1)]) && Decodes(entries[Index(|out| + 1)], item)
    ensures ItemsRead(entries, out + [item])
  {
    hide Decodes, Readable;
    var longer := out + [item];
    assert ItemRead(entries[Index(|out| + 1)], item);
    forall i | 1 <= i <= |longer| ensures Index(i) in entries && ItemRead(entries[Index(i)], longer[i - 1]) {
      if i <= |out| {
        assert longer[i - 1] == out[i - 1];
      }
    }
  }

  lemma AllRead(value: Lua, out: seq<Json>)
    requires value.Table? && ArrayKeys(value.entries) && |out| == |value.entries.Keys|
    requires ItemsRead(value.entries, out)
    ensures Readable(value) && Decodes(value, Array(out))
  {
    forall k | k in value.entries ensures Readable(value.entries[k]) {
      assert k == Index(k.i);
    }
  }

  method ReadObject(value: Lua) returns (r: Option<Json>)
    requires value.Table? && !ArrayKeys(value.entries)
    ensures r.Some? <==> Readable(value)
    ensures r.Some? ==> Decodes(value, r.value)
    decreases value, 0
  {
    var entries := value.entries;
    var out: map<string, Json> := map[];
    var todo := entries.Keys;
    while todo != {}
      invariant todo <= entries.Keys
      invariant forall k :: k in entries.Keys - todo ==> !k.Other? && Readable(entries[k]) && KeyText(k) in out
      invariant forall name :: name in out ==>
                  exists k :: k in entries.Keys - todo && KeyText(k) == name && Decodes(entries[k], out[name])
    {
      var k :| k in todo;
      if k.Other? {
        return None;
      }
      var item := LuaToJson(entries[k]);
      if item.None? {
        return None;
      }
      ghost var before, read := out, entries.Keys - todo;
      out := out[KeyText(k) := item.value];
      todo := todo - {k};
      forall name | name in out
        ensures exists x :: x in entries.Keys - todo && KeyText(x) == name && Decodes(entries[x], out[name])
      {
        if name == KeyText(k) {
          assert k in entries.Keys - todo;
        } else {
          var x :| x in read && KeyText(x) == name && Decodes(entries[x], before[name]);
          assert x in entries.Keys - todo;
        }
      }
    }
    r := Some(Object(out));
  }

  // ---------------------------------------------------------------------------------------
  // There and back
  // ---------------------------------------------------------------------------------------

  /** An array without its trailing nulls. */
  function TrimNulls(items: seq<Json>): (r: seq<Json>)
    ensures r <= items && (forall i :: |r| <= i < |items| ==> items[i] == Null)
    ensures r != [] ==> r[|r| - 1] != Null
  {
    if items != [] && items[|items| - 1] == Null then TrimNulls(items[..|items| - 1]) else items
  }

  /** What is left of a value after a trip to Lua and back. */
  ghost function Survives(value: Json): Json
    decreases value, 1
  {
    match value
    case Array(_) => ArrayLeft(LeftItems(value))
    case Object(_) => ObjectLeft(LeftMembers(value))
    case _ => value
  }

  ghost function LeftItems(value: Json): seq<Json>
    requires value.Array?
    decreases value, 0
  {
    seq(|value.items|, i requires 0 <= i < |value.items| => Survives(value.items[i]))
  }

  ghost function LeftMembers(value: Json): map<string, Json>
    requires value.Object?
    decreases value, 0
  {
    map k | k in value.members :: Survives(value.members[k])
  }

  /** Trailing nulls are cut; an array that still has holes is keyed by its one-based indexes. */
  ghost function ArrayLeft(items: seq<Json>): Json {
    var kept := TrimNulls(items);
    if Null !in kept then Array(kept) else Object(ByIndex(items))
  }

  ghost function ByIndex(items: seq<Json>): map<string, Json> {
    Renamed(NonNull(items), KeyText)
  }

  ghost function NonNull(items: seq<Json>): map<Key, Json> {
    map k | k in IndexKeys(|items|) && items[k.i - 1] != Null :: items[k.i - 1]
  }

  /** The values under the texts of their keys. */
  ghost function Renamed(values: map<Key, Json>, text: Key -> string): map<string, Json> {
    map name | name in (set k | k in values :: text(k)) :: values[KeyNamed(values, text, name)]
  }

  ghost function KeyNamed(values: map<Key, Json>, text: Key -> string, name: string): (k: Key)
    requires exists k :: k in values && text(k) == name
    ensures k in values && text(k) == name
  {
    var k :| k in values && text(k) == name;
    k
  }

  ghost predicate TextsDiffer(keys: set<Key>, text: Key -> string) {
    forall a, b :: a in keys && b in keys && text(a) == text(b) ==> a == b
  }

  /** Members that are the values under their keys' texts: there is one such map. */
  lemma RenamedUnique(values: map<Key, Json>, text: Key -> string, members: map<string, Json>)
    requires TextsDiffer(values.Keys, text)
    requires forall k :: k in values ==> text(k) in members
    requires forall name :: name in members ==> exists k :: k in values && text(k) == name && members[name] == values[k]
    ensures members == Renamed(values, text)
  {
  }

  lemma KeyTextsDiffer(keys: set<Key>, n: nat)
    requires keys <= IndexKeys(n) || forall k :: k in keys ==> k.Name?
    ensures TextsDiffer(keys, KeyText)
  {
    forall a, b | a in keys && b in keys && KeyText(a) == KeyText(b) ensures a == b {
      if a.Index? {
        Decimal.TextInjective(a.i, b.i);
      }
    }
  }

  /** Null members vanish, and an object without members turns into the empty array. */
  ghost function ObjectLeft(members: map<string, Json>): Json {
    var kept := map k | k in members && members[k] != Null :: members[k];
    if kept == map[] then Array([]) else Object(kept)
  }

  /** Values without nulls inside and without empty objects. */
  ghost predicate Normal(value: Json) {
    match value
    case Array(items) => forall i :: 0 <= i < |items| ==> items[i] != Null && Normal(items[i])
    case Object(members) => members != map[] && forall k :: k in members ==> members[k] != Null && Normal(members[k])
    case _ => true
  }

  lemma ArrayLeftNormal(items: seq<Json>)
    requires forall i :: 0 <= i < |items| ==> Normal(items[i])
    ensures Normal(ArrayLeft(items))
  {
    var kept := TrimNulls(items);
    if Null in kept {
      assert Index(|kept|) in NonNull(items);
      assert KeyText(Index(|kept|)) in ByIndex(items);
    }
  }

  lemma {:induction false} SurvivesNormal(value: Json)
    ensures Normal(Survives(value))
    ensures Survives(value) == Null <==> value == Null
    decreases value
  {
    match value
    case Array(items) =>
      var left := LeftItems(value);
      forall i | 0 <= i < |items| ensures Normal(left[i]) {
        SurvivesNormal(items[i]);
      }
      ArrayLeftNormal(left);
    case Object(members) =>
      forall k | k in members ensures Normal(Survives(members[k])) {
        SurvivesNormal(members[k]);
      }
    case _ =>
  }

  lemma {:induction false} NormalSurvives(value: Json)
    requires Normal(value)
    ensures Survives(value) == value
    decreases value
  {
    match value
    case Array(items) =>
      var left := LeftItems(value);
      forall i | 0 <= i < |items| ensures left[i] == items[i] {
        NormalSurvives(items[i]);
      }
      assert left == items;
      assert TrimNulls(items) == items;
    case Object(members) =>
      var left := LeftMembers(value);
      forall k | k in members ensures left[k] == members[k] {
        NormalSurvives(members[k]);
      }
      assert left == members;
      assert (map k | k in members && members[k] != Null :: members[k]) == members;
    case _ =>
  }

  /** The trip leaves exactly the normal values unchanged, and a second trip changes nothing more. */
  lemma SurvivesFixpoints(value: Json)
    ensures Survives(value) == value <==> Normal(value)
    ensures Survives(Survives(value)) == Survives(value)
  {
    SurvivesNormal(value);
    NormalSurvives(Survives(value));
    if Normal(value) {
      NormalSurvives(value);
    }
  }

  /** A sent array has the keys 1 to n exactly when its nulls are all at the end. */
  lemma SentArrayKeys(sent: seq<Lua>, left: seq<Json>)
    requires |sent| == |left| && forall i :: 0 <= i < |sent| ==> (sent[i] == Nil <==> left[i] == Null)
    ensures ArrayKeys(ListEntries(sent)) <==> Null !in TrimNulls(left)
    ensures ArrayKeys(ListEntries(sent)) ==> |ListEntries(sent).Keys| == |TrimNulls(left)|
  {
    var entries, kept := ListEntries(sent), TrimNulls(left);
    if Null !in kept {
      assert entries.Keys == IndexKeys(|kept|);
      ArrayKeysSize(entries, |kept|);
    } else {
      var hole :| 0 <= hole < |kept| && kept[hole] == Null;
      assert Index(|kept|) in entries && Index(hole + 1) !in entries;
      HoleDecides(entries, hole + 1, |kept|);
    }
  }

  lemma HoleDecides(entries: map<Key, Lua>, hole: nat, last: nat)
    requires 1 <= hole < last && Index(hole) !in entries && Index(last) in entries
    ensures !ArrayKeys(entries)
  {
    var n := |entries.Keys|;
    assert Index(last) in IndexKeys(n) ==> Index(hole) in IndexKeys(n);
  }

  lemma {:induction false} SentReadable(value: Json)
    ensures Readable(ToLua(value))
    decreases value
  {
    match value
    case Array(items) =>
      var sent := SentItems(value);
      forall i | 0 <= i < |items| ensures Readable(sent[i]) {
        SentReadable(items[i]);
      }
      ListReadable(sent);
    case Object(members) =>
      var sent := SentMembers(value);
      forall k | k in members ensures Readable(sent[k]) {
        SentReadable(members[k]);
      }
      MembersReadable(sent);
    case _ =>
  }

  lemma ListReadable(sent: seq<Lua>)
    requires forall i :: 0 <= i < |sent| ==> Readable(sent[i])
    ensures Readable(Table(ListEntries(sent)))
  {
  }

  lemma MembersReadable(sent: map<string, Lua>)
    requires forall k :: k in sent ==> Readable(sent[k])
    ensures Readable(Table(MemberEntries(sent)))
  {
  }

  /** Whatever the read order, a sent value can be read back in one way only. */
  lemma {:induction false} RoundTrip(value: Json, back: Json)
    requires Decodes(ToLua(value), back)
    ensures back == Survives(value)
    decreases value, 1
  {
    match value
    case Array(items) => RoundTripArray(items, back);
    case Object(members) => RoundTripObject(members, back);
    case _ =>
  }

  lemma {:induction false} RoundTripArray(items: seq<Json>, back: Json)
    requires Decodes(ToLua(Array(items)), back)
    ensures back == Survives(Array(items))
    decreases Array(items), 0, 2
  {
    ItemsReadAs(Array(items));
    ListReadsBack(SentItems(Array(items)), LeftItems(Array(items)), back);
  }

  lemma {:induction false} ItemsReadAs(value: Json)
    requires value.Array?
    ensures forall i :: 0 <= i < |value.items| ==> ReadsAs(SentItems(value)[i], LeftItems(value)[i])
    decreases value, 0, 1
  {
    forall i | 0 <= i < |value.items| ensures ReadsAs(SentItems(value)[i], LeftItems(value)[i]) {
      PartReadsAs(value, value.items[i]);
    }
  }

  lemma {:induction false} RoundTripObject(members: map<string, Json>, back: Json)
    requires Decodes(ToLua(Object(members)), back)
    ensures back == Survives(Object(members))
    decreases Object(members), 0, 2
  {
    var value := Object(members);
    assert ToLua(value) == Table(MemberEntries(SentMembers(value)));
    assert Survives(value) == ObjectLeft(LeftMembers(value));
    MembersReadAs(value);
    hide ToLua, Survives, Decodes, MemberEntries, ObjectLeft, ReadsAs;
    MembersReadBack(SentMembers(value), LeftMembers(value), back);
  }

  lemma {:induction false} MembersReadAs(value: Json)
    requires value.Object?
    ensures forall k :: k in SentMembers(value) ==> ReadsAs(SentMembers(value)[k], LeftMembers(value)[k])
    decreases value, 0, 1
  {
    forall k | k in value.members ensures ReadsAs(SentMembers(value)[k], LeftMembers(value)[k]) {
      PartReadsAs(value, value.members[k]);
    }
  }

  lemma {:induction false} PartReadsAs(whole: Json, value: Json)
    requires value < whole
    ensures ReadsAs(ToLua(value), Survives(value))
    decreases whole, 0, 0
  {
    forall b | Decodes(ToLua(value), b) ensures b == Survives(value) {
      RoundTrip(value, b);
    }
    SurvivesNormal(value);
  }

  ghost predicate ReadsAs(sent: Lua, left: Json) {
    (sent == Nil <==> left == Null) && forall back :: Decodes(sent, back) ==> back == left
  }

  lemma DecodedKey(entries: map<Key, Lua>, back: Json, k: Key)
    requires !ArrayKeys(entries) && Decodes(Table(entries), back) && k in entries
    ensures KeyText(k) in back.members
  {
  }

  lemma DecodedName(entries: map<Key, Lua>, back: Json, name: string) returns (k: Key)
    requires !ArrayKeys(entries) && Decodes(Table(entries), back) && name in back.members
    ensures k in entries && KeyText(k) == name && Decodes(entries[k], back.members[name])
  {
    k :| k in entries && KeyText(k) == name && Decodes(entries[k], back.members[name]);
  }

  lemma ListReadsBack(sent: seq<Lua>, left: seq<Json>, back: Json)
    requires |sent| == |left| && forall i :: 0 <= i < |sent| ==> ReadsAs(sent[i], left[i])
    requires Decodes(Table(ListEntries(sent)), back)
    ensures back == ArrayLeft(left)
  {
    SentArrayKeys(sent, left);
    if Null !in TrimNulls(left) {
      DenseReadsBack(sent, left, back);
    } else {
      HolesReadBack(sent, left, back);
    }
  }

  lemma DenseReadsBack(sent: seq<Lua>, left: seq<Json>, back: Json)
    requires |sent| == |left| && forall i :: 0 <= i < |sent| ==> ReadsAs(sent[i], left[i])
    requires ArrayKeys(ListEntries(sent)) && |ListEntries(sent).Keys| == |TrimNulls(left)|
    requires Decodes(Table(ListEntries(sent)), back) && Null !in TrimNulls(left)
    ensures back == Array(TrimNulls(left))
  {
    var entries := ListEntries(sent);
    forall i | 0 <= i < |back.items| ensures back.items[i] == left[i] {
      var k := i + 1;
      assert left[i] == TrimNulls(left)[i];
      assert Index(k) in entries && Decodes(entries[Index(k)], back.items[k - 1]);
    }
  }

  /**
   * A table read as an object, with keys of different texts: in whatever order its entries are read,
   * the result is each entry's reading under its key's text.
   */
  lemma TableReadsBack(entries: map<Key, Lua>, values: map<Key, Json>, back: Json)
    requires entries.Keys == values.Keys && forall k :: k in entries ==> ReadsAs(entries[k], values[k])
    requires TextsDiffer(entries.Keys, KeyText)
    requires !ArrayKeys(entries) && Decodes(Table(entries), back)
    ensures back == Object(Renamed(values, KeyText))
  {
    forall k | k in values ensures KeyText(k) in back.members {
      DecodedKey(entries, back, k);
    }
    forall name | name in back.members ensures ReadUnder(values, name, back.members[name]) {
      var k := DecodedName(entries, back, name);
      assert ReadsAs(entries[k], values[k]);
    }
    RenamedUnique(values, KeyText, back.members);
  }

  ghost predicate ReadUnder(values: map<Key, Json>, name: string, value: Json) {
    exists k :: k in values && KeyText(k) == name && value == values[k]
  }

  lemma HolesReadBack(sent: seq<Lua>, left: seq<Json>, back: Json)
    requires |sent| == |left| && forall i :: 0 <= i < |sent| ==> ReadsAs(sent[i], left[i])
    requires !ArrayKeys(ListEntries(sent)) && Decodes(Table(ListEntries(sent)), back)
    ensures back == Object(ByIndex(left))
  {
    ListEntriesReadAs(sent, left);
    KeyTextsDiffer(ListEntries(sent).Keys, |left|);
    TableReadsBack(ListEntries(sent), NonNull(left), back);
  }

  lemma ListEntriesReadAs(sent: seq<Lua>, left: seq<Json>)
    requires |sent| == |left| && forall i :: 0 <= i < |sent| ==> ReadsAs(sent[i], left[i])
    ensures ListEntries(sent).Keys == NonNull(left).Keys
    ensures forall k :: k in ListEntries(sent) ==> ReadsAs(ListEntries(sent)[k], NonNull(left)[k])
  {
    forall k ensures k in NonNull(left) <==> k in ListEntries(sent) {
      assert k.Index? && 1 <= k.i <= |left| ==> ReadsAs(sent[k.i - 1], left[k.i - 1]);
    }
  }

  lemma MembersReadBack(sent: map<string, Lua>, left: map<string, Json>, back: Json)
    requires sent.Keys == left.Keys
    requires forall k :: k in sent ==> ReadsAs(sent[k], left[k])
    requires Decodes(Table(MemberEntries(sent)), back)
    ensures back == ObjectLeft(left)
  {
    NamesKept(sent, left);
    if MemberEntries(sent) == map[] {
      EmptyReadsBack(back);
    } else {
      NamedReadBack(MemberEntries(sent), left, map k | k in left && left[k] != Null :: left[k], back);
    }
  }

  lemma NamedReadBack(entries: map<Key, Lua>, left: map<string, Json>, kept: map<string, Json>, back: Json)
    requires forall k :: k in entries ==> k.Name? && k.s in left && ReadsAs(entries[k], left[k.s])
    requires forall name :: name in kept <==> Name(name) in entries
    requires forall name :: name in kept ==> kept[name] == left[name]
    requires entries != map[] && Decodes(Table(entries), back)
    ensures back == Object(kept)
  {
    hide Decodes, Renamed, TextsDiffer, ReadsAs, ArrayKeys;
    var values := ByName(entries.Keys, left);
    NamedTableKeys(entries);
    forall k | k in values ensures k.s in kept && kept[k.s] == values[k] {
      assert k == Name(k.s);
    }
    NamesRenamed(values, kept);
    KeyTextsDiffer(entries.Keys, 0);
    TableReadsBack(entries, values, back);
  }

  ghost function ByName(keys: set<Key>, left: map<string, Json>): (values: map<Key, Json>)
    requires forall k :: k in keys ==> k.Name? && k.s in left
    ensures values.Keys == keys
  {
    map k | k in keys :: left[k.s]
  }

  lemma EmptyReadsBack(back: Json)
    requires Decodes(Table(map[]), back)
    ensures back == Array([])
  {
    var entries: map<Key, Lua> := map[];
    assert ArrayKeys(entries);
  }

  lemma NamesRenamed(values: map<Key, Json>, kept: map<string, Json>)
    requires forall k :: k in values ==> k.Name? && k.s in kept && kept[k.s] == values[k]
    requires forall name :: name in kept ==> Name(name) in values
    ensures kept == Renamed(values, KeyText)
  {
    forall name | name in kept ensures KeyText(Name(name)) == name {
    }
    KeyTextsDiffer(values.Keys, 0);
    RenamedUnique(values, KeyText, kept);
  }

  lemma NamesKept(sent: map<string, Lua>, left: map<string, Json>)
    requires sent.Keys == left.Keys
    requires forall k :: k in sent ==> ReadsAs(sent[k], left[k])
    ensures var kept := map k | k in left && left[k] != Null :: left[k];
            && (MemberEntries(sent) == map[] <==> kept == map[])
            && (forall name :: name in kept <==> Name(name) in MemberEntries(sent))
            && forall k :: k in MemberEntries(sent) ==>
                 k.Name? && k.s in left && ReadsAs(MemberEntries(sent)[k], left[k.s])
  {
    var kept := map k | k in left && left[k] != Null :: left[k];
    forall name ensures name in kept <==> Name(name) in MemberEntries(sent) {
      assert name in left ==> ReadsAs(sent[name], left[name]);
    }
    if MemberEntries(sent) != map[] {
      var some :| some in MemberEntries(sent);
      assert some.s in kept;
    }
  }

  /** A table with string keys only is read as an array exactly when it is empty. */
  lemma NamedTableKeys(entries: map<Key, Lua>)
    requires forall k :: k in entries ==> k.Name?
    ensures ArrayKeys(entries) <==> entries == map[]
  {
    if ArrayKeys(entries) {
      assert |entries.Keys| > 0 ==> Index(1) in entries;
      assert entries.Keys == {};
    }
  }

  method SendAndReadBack(value: Json) returns (back: Option<Json>)
    ensures back == Some(Survives(value))
  {
    var sent := JsonToLua(value);
    back := LuaToJson(sent);
    SentReadable(value);
    RoundTrip(value, back.value);
  }

  // ---------------------------------------------------------------------------------------
  // Tables that lose entries
  // ---------------------------------------------------------------------------------------

  ghost function Texts(keys: set<Key>): set<string> {
    set k | k in keys :: KeyText(k)
  }

  lemma {:induction false} TextCount(keys: set<Key>)
    ensures |Texts(keys)| <= |keys|
    ensures |Texts(keys)| == |keys| <==> TextsDiffer(keys, KeyText)
  {
    if keys == {} {
      assert Texts(keys) == {};
    } else {
      var k :| k in keys;
      var rest := keys - {k};
      TextCount(rest);
      assert Texts(keys) == Texts(rest) + {KeyText(k)};
      assert |keys| == |rest| + 1;
      if TextsDiffer(keys, KeyText) {
        assert KeyText(k) !in Texts(rest);
      } else if KeyText(k) !in Texts(rest) {
        forall a, b | a in keys && b in keys && KeyText(a) == KeyText(b) && TextsDiffer(rest, KeyText) ensures a == b {
          assert a != k ==> KeyText(a) in Texts(rest);
          assert b != k ==> KeyText(b) in Texts(rest);
        }
      }
    }
  }

  lemma SignShows(i: int)
    ensures KeyText(Index(i)) != "" && (KeyText(Index(i))[0] == '-' <==> i < 0)
  {
    if i >= 0 {
      assert Decimal.IsDigit(Decimal.Text(i)[0]);
    }
  }

  lemma IndexTextsDiffer(i: int, j: int)
    requires KeyText(Index(i)) == KeyText(Index(j))
    ensures i == j
  {
    hide Decimal.Text;
    SignShows(i);
    SignShows(j);
    if i < 0 {
      var ti, tj := Decimal.Text(-i), Decimal.Text(-j);
      assert ("-" + ti)[1..] == ti && ("-" + tj)[1..] == tj;
      Decimal.TextInjective(-i, -j);
    } else {
      Decimal.TextInjective(i, j);
    }
  }

  ghost predicate NoDigitNames(keys: set<Key>) {
    forall i :: Index(i) in keys ==> Name(KeyText(Index(i))) !in keys
  }

  lemma SameTextSameKey(keys: set<Key>, a: Key, b: Key)
    requires a in keys && b in keys && !a.Other? && !b.Other? && NoDigitNames(keys)
    requires KeyText(a) == KeyText(b)
    ensures a == b
  {
    assert a.Index? ==> a == Index(a.i) && Name(KeyText(a)) !in keys;
    assert b.Index? ==> b == Index(b.i) && Name(KeyText(b)) !in keys;
    assert a.Name? ==> a == Name(KeyText(a));
    assert b.Name? ==> b == Name(KeyText(b));
    if a.Index? {
      IndexTextsDiffer(a.i, b.i);
    }
  }

  /** Number and string keys have different texts unless a string spells a number that is there too. */
  lemma TextsDifferIff(keys: set<Key>)
    requires forall k :: k in keys ==> !k.Other?
    ensures TextsDiffer(keys, KeyText) <==> NoDigitNames(keys)
  {
    if NoDigitNames(keys) {
      forall a, b | a in keys && b in keys && KeyText(a) == KeyText(b) ensures a == b {
        SameTextSameKey(keys, a, b);
      }
    }
    if TextsDiffer(keys, KeyText) {
      forall i | Index(i) in keys ensures Name(KeyText(Index(i))) !in keys {
        assert KeyText(Name(KeyText(Index(i)))) == KeyText(Index(i));
      }
    }
  }

  ghost function Size(json: Json): nat
    requires json.Array? || json.Object?
  {
    if json.Array? then |json.items| else |json.members|
  }

  /** A table read as an object keeps all its entries exactly when its keys have different texts. */
  lemma MembersKeptIff(entries: map<Key, Lua>, members: map<string, Json>)
    requires !ArrayKeys(entries) && Decodes(Table(entries), Object(members))
    ensures |members| == |entries| <==> TextsDiffer(entries.Keys, KeyText)
  {
    forall name ensures name in members <==> name in Texts(entries.Keys) {
      if name in members {
        var k := DecodedName(entries, Object(members), name);
      }
      if name in Texts(entries.Keys) {
        var k :| k in entries && KeyText(k) == name;
        DecodedKey(entries, Object(members), k);
      }
    }
    assert members.Keys == Texts(entries.Keys);
    TextCount(entries.Keys);
  }

  /**
   * Reading a table loses no entry exactly when the table has no string key that spells one of its
   * number keys.
   */
  lemma NothingLostIff(entries: map<Key, Lua>, back: Json)
    requires Readable(Table(entries)) && Decodes(Table(entries), back)
    ensures Size(back) == |entries| <==> NoDigitNames(entries.Keys)
  {
    if ArrayKeys(entries) {
      forall k | k in entries ensures !k.Name? {
        assert k in IndexKeys(|entries.Keys|);
      }
    } else {
      MembersKeptIff(entries, back.members);
      TextsDifferIff(entries.Keys);
    }
  }

  /** A value that can be read in one way only. */
  ghost predicate OnlyReading(value: Lua, json: Json) {
    forall back :: Decodes(value, back) <==> back == json
  }

  ghost function KeyOfText(keys: set<Key>, name: string): (k: Key)
    requires name in Texts(keys)
    ensures k in keys && KeyText(k) == name
  {
    var k :| k in keys && KeyText(k) == name;
    k
  }

  /** One of the ways to read a value: of the entries under one text it takes some fixed one. */
  ghost function SomeReading(value: Lua): Json
    requires Readable(value)
    decreases value, 1
  {
    match value
    case Nil => Null
    case LBool(b) => Bool(b)
    case LNumber(n) => Number(n)
    case LString(s) => String(s)
    case Table(entries) => if ArrayKeys(entries) then Array(SomeItems(value)) else Object(SomeMembers(value))
  }

  ghost function SomeItems(value: Lua): (items: seq<Json>)
    requires Readable(value) && value.Table? && ArrayKeys(value.entries)
    decreases value, 0
  {
    seq(|value.entries.Keys|, i requires 0 <= i < |value.entries.Keys| =>
      assert Index(i + 1) in value.entries; SomeReading(value.entries[Index(i + 1)]))
  }

  ghost function SomeMembers(value: Lua): map<string, Json>
    requires Readable(value) && value.Table?
    decreases value, 0
  {
    map name | name in Texts(value.entries.Keys) :: SomeReading(value.entries[KeyOfText(value.entries.Keys, name)])
  }

  /** Everywhere in the value, entries that come under one text are read alike. */
  ghost predicate Settled(value: Lua)
    requires Readable(value)
  {
    value.Table? ==>
      && (forall k :: k in value.entries ==> Settled(value.entries[k]))
      && (ArrayKeys(value.entries) || SameUnderSameText(value))
  }

  ghost predicate SameUnderSameText(value: Lua)
    requires Readable(value) && value.Table?
  {
    forall a, b :: a in value.entries && b in value.entries && KeyText(a) == KeyText(b) ==>
      SomeReading(value.entries[a]) == SomeReading(value.entries[b])
  }

  lemma {:induction false} SomeReadingReads(value: Lua)
    requires Readable(value)
    ensures Decodes(value, SomeReading(value))
  {
    if value.Table? {
      forall k | k in value.entries ensures Decodes(value.entries[k], SomeReading(value.entries[k])) {
        SomeReadingReads(value.entries[k]);
      }
      if !ArrayKeys(value.entries) {
        SomeMembersRead(value);
      }
    }
  }

  lemma SomeMembersRead(value: Lua)
    requires Readable(value) && value.Table?
    requires forall k :: k in value.entries ==> Decodes(value.entries[k], SomeReading(value.entries[k]))
    ensures DecodesMembers(value, SomeMembers(value))
  {
    hide Decodes, SomeReading;
    var entries, members := value.entries, SomeMembers(value);
    forall name | name in members
      ensures exists k :: k in entries && KeyText(k) == name && Decodes(entries[k], members[name])
    {
      var k := KeyOfText(entries.Keys, name);
      assert k in entries && KeyText(k) == name && Decodes(entries[k], members[name]);
    }
  }

  ghost predicate ReadsOnce(value: Lua)
    requires Readable(value)
  {
    forall back :: Decodes(value, back) ==> back == SomeReading(value)
  }

  lemma ItemsReadOnce(value: Lua, items: seq<Json>)
    requires Readable(value) && value.Table? && ArrayKeys(value.entries)
    requires forall k :: k in value.entries ==> ReadsOnce(value.entries[k])
    requires DecodesItems(value, items)
    ensures items == SomeItems(value)
  {
    hide Decodes, SomeReading;
    forall i | 0 <= i < |items| ensures items[i] == SomeItems(value)[i] {
      var k := i + 1;
      assert Index(k) in value.entries && Decodes(value.entries[Index(k)], items[k - 1]);
    }
  }

  lemma MemberReadAlike(value: Lua, k: Key, name: string)
    requires Readable(value) && value.Table? && SameUnderSameText(value)
    requires k in value.entries && KeyText(k) == name
    ensures name in SomeMembers(value) && SomeReading(value.entries[k]) == SomeMembers(value)[name]
  {
    hide SomeReading;
  }

  lemma MembersReadOnce(value: Lua, members: map<string, Json>)
    requires Readable(value) && value.Table? && SameUnderSameText(value)
    requires forall k :: k in value.entries ==> ReadsOnce(value.entries[k])
    requires DecodesMembers(value, members)
    ensures members == SomeMembers(value)
  {
    hide Decodes, SomeReading, SameUnderSameText;
    forall name | name in members
      ensures name in SomeMembers(value) && members[name] == SomeMembers(value)[name]
    {
      var k :| k in value.entries && KeyText(k) == name && Decodes(value.entries[k], members[name]);
      MemberReadAlike(value, k, name);
    }
    forall name | name in SomeMembers(value) ensures name in members {
      assert KeyOfText(value.entries.Keys, name) in value.entries;
    }
    hide SomeMembers;
  }

  /** A settled value has no other reading. */
  lemma {:induction false} SettledReadsOnce(value: Lua)
    requires Readable(value) && Settled(value)
    ensures ReadsOnce(value)
  {
    if value.Table? {
      forall k | k in value.entries ensures ReadsOnce(value.entries[k]) {
        SettledReadsOnce(value.entries[k]);
      }
      if ArrayKeys(value.entries) {
        forall back | Decodes(value, back) ensures back == SomeReading(value) {
          ItemsReadOnce(value, back.items);
        }
      } else {
        forall back | Decodes(value, back) ensures back == SomeReading(value) {
          MembersReadOnce(value, back.members);
        }
      }
    }
  }

  lemma ArrayReading(value: Lua)
    requires Readable(value) && value.Table? && ArrayKeys(value.entries)
    ensures SomeReading(value) == Array(SomeItems(value)) && |SomeItems(value)| == |value.entries.Keys|
    ensures forall i :: 1 <= i <= |value.entries.Keys| ==>
              Index(i) in value.entries && SomeItems(value)[i - 1] == SomeReading(value.entries[Index(i)])
    ensures forall items :: Decodes(value, Array(items)) <==> DecodesItems(value, items)
  {
  }

  lemma ObjectReading(value: Lua)
    requires Readable(value) && value.Table? && !ArrayKeys(value.entries)
    ensures SomeReading(value) == Object(SomeMembers(value))
    ensures forall k :: k in value.entries ==> KeyText(k) in SomeMembers(value)
    ensures forall members :: Decodes(value, Object(members)) <==> DecodesMembers(value, members)
  {
  }

  /** Reading one item, or the entry that comes last under its text, in another way gives a reading again. */
  lemma OtherItem(value: Lua, i: nat, item: Json)
    requires Readable(value) && value.Table? && ArrayKeys(value.entries) && 1 <= i <= |value.entries.Keys|
    requires Index(i) in value.entries && Decodes(value.entries[Index(i)], item)
    ensures i <= |SomeItems(value)| && Decodes(value, Array(SomeItems(value)[i - 1 := item]))
  {
    hide Decodes, SomeReading, SomeItems, ArrayKeys;
    ArrayReading(value);
    SomeReadingReads(value);
    assert DecodesItems(value, SomeItems(value)[i - 1 := item]);
  }

  lemma OtherMember(value: Lua, k: Key, member: Json)
    requires Readable(value) && value.Table? && !ArrayKeys(value.entries) && k in value.entries
    requires Decodes(value.entries[k], member)
    ensures Decodes(value, Object(SomeMembers(value)[KeyText(k) := member]))
  {
    hide Decodes, SomeReading, SomeMembers, ArrayKeys;
    ObjectReading(value);
    SomeReadingReads(value);
    var entries, members := value.entries, SomeMembers(value)[KeyText(k) := member];
    forall name | name in members
      ensures exists j :: j in entries && KeyText(j) == name && Decodes(entries[j], members[name])
    {
      if name == KeyText(k) {
        assert k in entries && Decodes(entries[k], members[name]);
      } else {
        assert members[name] == SomeMembers(value)[name];
      }
    }
    assert DecodesMembers(value, members);
  }

  lemma OnceIsThat(value: Lua, json: Json)
    requires Readable(value) && forall back :: Decodes(value, back) ==> back == json
    ensures ReadsOnce(value) && SomeReading(value) == json
  {
    hide Decodes, SomeReading;
    SomeReadingReads(value);
  }

  lemma OnceAll(value: Lua, back: Json)
    requires Readable(value) && ReadsOnce(value) && Decodes(value, back)
    ensures back == SomeReading(value)
  {
  }

  /** If a value has one reading, so has each of its entries. */
  lemma ItemReadsOnce(value: Lua, i: nat)
    requires Readable(value) && value.Table? && ArrayKeys(value.entries) && ReadsOnce(value)
    requires 1 <= i <= |value.entries.Keys| && Index(i) in value.entries
    ensures ReadsOnce(value.entries[Index(i)])
  {
    hide Decodes, SomeReading, SomeItems, ArrayKeys, ReadsOnce;
    ArrayReading(value);
    var items := SomeItems(value);
    forall back | Decodes(value.entries[Index(i)], back) ensures back == items[i - 1] {
      OtherItem(value, i, back);
      OnceAll(value, Array(items[i - 1 := back]));
      assert items[i - 1 := back][i - 1] == back;
    }
    OnceIsThat(value.entries[Index(i)], items[i - 1]);
  }

  lemma MemberReadsOnce(value: Lua, k: Key)
    requires Readable(value) && value.Table? && !ArrayKeys(value.entries) && ReadsOnce(value) && k in value.entries
    ensures ReadsOnce(value.entries[k])
    ensures KeyText(k) in SomeMembers(value) && SomeReading(value.entries[k]) == SomeMembers(value)[KeyText(k)]
  {
    hide Decodes, SomeReading, SomeMembers, ArrayKeys, ReadsOnce;
    ObjectReading(value);
    var members, name := SomeMembers(value), KeyText(k);
    forall back | Decodes(value.entries[k], back) ensures back == members[name] {
      OtherMember(value, k, back);
      OnceAll(value, Object(members[name := back]));
      assert members[name := back][name] == back;
    }
    OnceIsThat(value.entries[k], members[name]);
  }

  lemma {:induction false} ReadOnceSettled(value: Lua)
    requires Readable(value) && ReadsOnce(value)
    ensures Settled(value)
  {
    hide ReadsOnce, SomeReading;
    if value.Table? {
      forall k | k in value.entries
        ensures Settled(value.entries[k])
        ensures !ArrayKeys(value.entries) ==>
                  KeyText(k) in SomeMembers(value) && SomeReading(value.entries[k]) == SomeMembers(value)[KeyText(k)]
      {
        if ArrayKeys(value.entries) {
          assert k in IndexKeys(|value.entries.Keys|) && k == Index(k.i);
          ItemReadsOnce(value, k.i);
        } else {
          MemberReadsOnce(value, k);
        }
        ReadOnceSettled(value.entries[k]);
      }
    }
  }

  /**
   * The order in which entries are read, in a table or anywhere inside it, does not show in the result
   * exactly when entries that come under one text are read alike everywhere.
   */
  lemma OrderMattersIff(value: Lua)
    requires Readable(value)
    ensures (exists json :: OnlyReading(value, json)) <==> Settled(value)
  {
    SomeReadingReads(value);
    if json :| OnlyReading(value, json) {
      assert json == SomeReading(value);
      ReadOnceSettled(value);
    }
    if Settled(value) {
      SettledReadsOnce(value);
      assert OnlyReading(value, SomeReading(value));
    }
  }

  /** A script's own table may use 1 and "1" together; then the read order decides what survives. */
  lemma KeysMayCollide(a: Lua, b: Lua, forA: Json, forB: Json)
    requires Decodes(a, forA) && Decodes(b, forB)
    ensures var table := Table(map[Index(1) := a, Name("1") := b]);
            Decodes(table, Object(map["1" := forA])) && Decodes(table, Object(map["1" := forB]))
  {
    Collide(a, b, Index(1), forA);
    Collide(a, b, Name("1"), forB);
  }

  lemma Collide(a: Lua, b: Lua, winner: Key, json: Json)
    requires winner == Index(1) || winner == Name("1")
    requires Decodes(if winner == Index(1) then a else b, json)
    ensures Decodes(Table(map[Index(1) := a, Name("1") := b]), Object(map["1" := json]))
  {
    var entries := map[Index(1) := a, Name("1") := b];
    BadKeyDecides(entries, Name("1"));
    assert Decimal.Text(1) == "1";
    assert winner in entries && KeyText(winner) == "1" && Decodes(entries[winner], json);
  }
}
