/** Table: the grid's configuration object. The constructor merges the caller's
    configuration over the defaults; the setters change the configuration array
    (or the table id) in place. */
module Config {
  import opened Php
  import opened Wrappers

  const PerPageOptions: PArray :=
    [Entry(IKey(0), Int(5)), Entry(IKey(1), Int(10)), Entry(IKey(2), Int(20)), Entry(IKey(3), Int(50))]

  /** The default configuration, in the order the constructor lists it. */
  const Defaults: PArray := [
    Entry(SKey("table"), Str("")),
    Entry(SKey("fields"), Arr([])),
    Entry(SKey("sortable"), Arr([])),
    Entry(SKey("perPageOptions"), Arr(PerPageOptions)),
    Entry(SKey("defaultPerPage"), Int(10)),
    Entry(SKey("searchPlaceholder"), Str("ძიება")),
    Entry(SKey("columnsButtonText"), Str("სვეტები ▾")),
    Entry(SKey("apiUrl"), Str("/api/table"))
  ]

  const DefaultKeys: seq<string> :=
    ["table", "fields", "sortable", "perPageOptions", "defaultPerPage",
     "searchPlaceholder", "columnsButtonText", "apiUrl"]

  lemma DefaultsKeys()
    ensures Keys(Defaults) == seq(|DefaultKeys|, i requires 0 <= i < |DefaultKeys| => SKey(DefaultKeys[i]))
  {
  }

  lemma DefaultsWellFormed()
    ensures WellFormed(Defaults)
  {
    forall i, j | 0 <= i < j < |Defaults| ensures Defaults[i].key != Defaults[j].key {
      var a, b := Defaults[i].key.s, Defaults[j].key.s;
      assert |a| > 1 && |b| > 1 && (a[0] != b[0] || a[1] != b[1]);
    }
  }

  /** The defaults hold every default key, each once. */
  lemma DefaultsShape()
    ensures WellFormed(Defaults)
    ensures forall d :: d in DefaultKeys ==> HasKey(Defaults, SKey(d))
  {
    DefaultsWellFormed();
    DefaultsKeys();
    forall d | d in DefaultKeys ensures HasKey(Defaults, SKey(d)) {
      var i :| 0 <= i < |DefaultKeys| && DefaultKeys[i] == d;
      assert Keys(Defaults)[i] == SKey(d);
    }
  }

  /** getConfig($key, $default): the stored value when it is set and not null. */
  function Lookup(config: PArray, key: Key, default: Value): Value
  {
    if IsSet(config, key) then Get(config, key) else default
  }

  /** A setConfig is seen by the next getConfig of that key, unless it stored
      null, and no other key's lookup changes. */
  lemma LookupAfterSet(config: PArray, key: Key, value: Value, key': Key, default: Value)
    ensures Lookup(Put(config, key, value), key', default) ==
              if key' == key then (if value == Null then default else value)
              else Lookup(config, key', default)
  {
    PutGet(config, key, value, key');
  }

  /** A lookup with a default is never null unless the default is. */
  lemma LookupNullOnlyFromDefault(config: PArray, key: Key, default: Value)
    ensures Lookup(config, key, default) == Null ==> default == Null
    ensures !HasKey(config, key) ==> Lookup(config, key, default) == default
  {
    if !HasKey(config, key) {
      GetAbsent(config, key);
    }
  }

  /** The values addSortable leaves behind: column appended only when absent. */
  function AddUnique(s: seq<Value>, v: Value): seq<Value>
  {
    if v in s then s else s + [v]
  }

  /** Adding keeps the list duplicate-free, contains the column afterwards, and
      adding the same column again changes nothing. */
  lemma AddUniqueSpec(s: seq<Value>, v: Value)
    ensures v in AddUnique(s, v)
    ensures Distinct(s) ==> Distinct(AddUnique(s, v))
    ensures AddUnique(AddUnique(s, v), v) == AddUnique(s, v)
    ensures forall w :: w in AddUnique(s, v) <==> w in s || w == v
  {
  }

  /** The sortable list removeSortable leaves: every copy of the column
      dropped, the rest renumbered from 0. */
  function WithoutColumn(list: PArray, column: string): PArray
  {
    ArrayValues(FilterOut(list, Str(column)))
  }

  lemma {:induction false} FilterOutAbsent(a: PArray, v: Value)
    requires v !in Values(a)
    ensures FilterOut(a, v) == a
  {
    if a != [] {
      assert Values(a)[0] == a[0].val;
      assert Values(a)[1..] == Values(a[1..]);
      FilterOutAbsent(a[1..], v);
      assert [a[0]] + a[1..] == a;
    }
  }

  /** Removing a column a second time changes nothing. */
  lemma RemoveSortableIdempotent(list: PArray, column: string)
    ensures WithoutColumn(WithoutColumn(list, column), column) == WithoutColumn(list, column)
  {
    var w := WithoutColumn(list, column);
    FilterOutValues(list, Str(column));
    RemoveAllSpec(Values(list), Str(column));
    assert Values(w) == Values(FilterOut(list, Str(column)));
    FilterOutAbsent(w, Str(column));
  }

  /** The record encoded by getConfigJson. */
  datatype ConfigShape = ConfigShape(table: Value, columns: seq<Key>, headers: PArray, sortable: Value)

  class Table {
    var tableId: string
    var config: PArray

    ghost predicate Valid()
      reads this
    {
      WellFormed(config)
    }

    /** The constructor: stores the id and merges the caller's configuration over
        the defaults. */
    constructor(tableId: string, config: PArray)
      requires WellFormed(config)
      ensures Valid()
      ensures this.tableId == tableId
      ensures this.config == ArrayMerge(Defaults, config)
      ensures forall d :: d in DefaultKeys ==> HasKey(this.config, SKey(d))
      ensures forall s :: HasKey(config, SKey(s)) ==> Get(this.config, SKey(s)) == Get(config, SKey(s))
      ensures forall s :: !HasKey(config, SKey(s)) ==> Get(this.config, SKey(s)) == Get(Defaults, SKey(s))
    {
      this.tableId := tableId;
      this.config := ArrayMerge(Defaults, config);
      DefaultsShape();
      ArrayMergeWellFormed(Defaults, config);
      forall s ensures HasKey(ArrayMerge(Defaults, config), SKey(s)) <==> HasKey(Defaults, SKey(s)) || HasKey(config, SKey(s))
        ensures Get(ArrayMerge(Defaults, config), SKey(s)) ==
                  if HasKey(config, SKey(s)) then Get(config, SKey(s)) else Get(Defaults, SKey(s))
      {
        ArrayMergeOverrides(Defaults, config, s);
      }
    }

    /** getTableId: the id given to the constructor or by the last setTableName
        that changed it. */
    function GetTableId(): (r: string)
      reads this
      ensures r == tableId
    {
      tableId
    }

    /** setTableName: a non-empty name ("0" counts as empty) becomes both the id
        and the configured table; an empty one changes nothing. */
    method SetTableName(name: string)
      requires Valid()
      modifies this
      ensures Valid()
      ensures EmptyString(name) ==> tableId == old(tableId) && config == old(config)
      ensures !EmptyString(name) ==> tableId == name && config == Put(old(config), SKey("table"), Str(name))
      ensures !EmptyString(name) ==> Get(config, SKey("table")) == Str(name)
      ensures forall k :: k != SKey("table") ==> Get(config, k) == Get(old(config), k)
    {
      if !EmptyString(name) {
        tableId := name;
        PutWellFormed(config, SKey("table"), Str(name));
        forall k ensures Get(Put(config, SKey("table"), Str(name)), k) ==
                         if k == SKey("table") then Str(name) else Get(config, k) {
          PutGet(config, SKey("table"), Str(name), k);
        }
        config := Put(config, SKey("table"), Str(name));
      }
    }

    /** getConfig: the stored value when the key is set to something other than
        null, the caller's default otherwise. */
    function GetConfig(key: Key, default: Value): (r: Value)
      reads this
      ensures IsSet(config, key) ==> r == Get(config, key) && r != Null
      ensures !IsSet(config, key) ==> r == default
      ensures r == Null ==> default == Null
    {
      Lookup(config, key, default)
    }

    /** setConfig: the key now holds the value; nothing else changes. */
    method SetConfig(key: Key, value: Value)
      requires Valid()
      modifies this`config
      ensures Valid()
      ensures config == Put(old(config), key, value)
      ensures Get(config, key) == value
      ensures forall k :: k != key ==> Get(config, k) == Get(old(config), k)
      ensures Keys(config) == if HasKey(old(config), key) then Keys(old(config)) else Keys(old(config)) + [key]
    {
      PutWellFormed(config, key, value);
      PutKeys(config, key, value);
      forall k ensures Get(Put(config, key, value), k) == if k == key then value else Get(config, k) {
        PutGet(config, key, value, k);
      }
      config := Put(config, key, value);
    }

    /** The values of the sortable list, when it is an array. */
    function SortableValues(): Option<seq<Value>>
      reads this
    {
      var s := Get(config, SKey("sortable"));
      if s.Arr? then Some(Values(s.entries)) else None
    }

    /** addSortable: appends the column only when it is not already listed.
        When the configured sortable entry is not an array, in_array raises a
        TypeError in PHP; the model refuses the call and changes nothing. */
    method AddSortable(column: string) returns (ok: bool)
      requires Valid()
      modifies this`config
      ensures Valid()
      ensures ok == old(SortableValues()).Some?
      ensures !ok ==> config == old(config)
      ensures ok ==> SortableValues() == Some(AddUnique(old(SortableValues()).value, Str(column)))
      ensures ok && Str(column) in old(SortableValues()).value ==> config == old(config)
      ensures forall k :: k != SKey("sortable") ==> Get(config, k) == Get(old(config), k)
      ensures Keys(config) == Keys(old(config))
    {
      var sortable := Get(config, SKey("sortable"));
      if !sortable.Arr? {
        return false;
      }
      ok := true;
      if Str(column) !in Values(sortable.entries) {
        var list := Push(sortable.entries, Str(column));
        assert Values(list) == Values(sortable.entries) + [Str(column)];
        UpdateEntry(SKey("sortable"), Arr(list));
      }
    }

    /** removeSortable: drops every copy of the column and renumbers the rest
        from 0 in their original order. A non-array sortable entry makes
        array_filter raise a TypeError; the model refuses the call. */
    method RemoveSortable(column: string) returns (ok: bool)
      requires Valid()
      modifies this`config
      ensures Valid()
      ensures ok == old(SortableValues()).Some?
      ensures !ok ==> config == old(config)
      ensures ok ==> SortableValues() == Some(RemoveAll(old(SortableValues()).value, Str(column)))
      ensures ok ==> Get(config, SKey("sortable")).Arr? &&
                     var e := Get(config, SKey("sortable")).entries;
                     forall i :: 0 <= i < |e| ==> e[i].key == IKey(i)
      ensures forall k :: k != SKey("sortable") ==> Get(config, k) == Get(old(config), k)
      ensures Keys(config) == Keys(old(config))
    {
      var sortable := Get(config, SKey("sortable"));
      if !sortable.Arr? {
        return false;
      }
      ok := true;
      var list := WithoutColumn(sortable.entries, column);
      FilterOutValues(sortable.entries, Str(column));
      assert Values(list) == Values(FilterOut(sortable.entries, Str(column)));
      UpdateEntry(SKey("sortable"), Arr(list));
    }

    /** The fields array, when it is one. */
    function Fields(): Option<PArray>
      reads this
    {
      var f := Get(config, SKey("fields"));
      if f.Arr? then Some(f.entries) else None
    }

    /** addField: sets one field's caption, keeping the other fields. A null or
        false fields entry becomes a fresh array, as PHP does; any other
        non-array entry makes PHP raise an error, and the model refuses the call. */
    method AddField(key: Key, caption: Value) returns (ok: bool)
      requires Valid()
      modifies this`config
      ensures Valid()
      ensures var f := Get(old(config), SKey("fields")); ok == (f.Arr? || f == Null || f == Bool(false))
      ensures !ok ==> config == old(config)
      ensures ok ==> Fields().Some? && Get(Fields().value, key) == caption
      ensures ok && old(Fields()).Some? ==>
                forall k :: k != key ==> Get(Fields().value, k) == Get(old(Fields()).value, k)
      ensures ok && old(Fields()).Some? ==>
                Keys(Fields().value) == if HasKey(old(Fields()).value, key) then Keys(old(Fields()).value)
                                        else Keys(old(Fields()).value) + [key]
      ensures ok && old(Fields()).None? ==> Fields() == Some([Entry(key, caption)])
      ensures forall k :: k != SKey("fields") ==> Get(config, k) == Get(old(config), k)
    {
      var fields := Get(config, SKey("fields"));
      if fields.Arr? {
        ok := true;
        var f := Put(fields.entries, key, caption);
        PutKeys(fields.entries, key, caption);
        forall k ensures Get(f, k) == if k == key then caption else Get(fields.entries, k) {
          PutGet(fields.entries, key, caption, k);
        }
        UpdateEntry(SKey("fields"), Arr(f));
      } else if fields == Null || fields == Bool(false) {
        ok := true;
        SetConfig(SKey("fields"), Arr([Entry(key, caption)]));
      } else {
        ok := false;
      }
    }

    /** removeField: deletes one field, keeping the others in order. unset on a
        null or false entry does nothing; on any other non-array entry PHP raises
        an error, and the model refuses the call. */
    method RemoveField(key: Key) returns (ok: bool)
      requires Valid()
      modifies this`config
      ensures Valid()
      ensures var f := Get(old(config), SKey("fields")); ok == (f.Arr? || f == Null || f == Bool(false))
      ensures !(ok && old(Fields()).Some?) ==> config == old(config)
      ensures ok && old(Fields()).Some? ==>
                && Fields().Some?
                && !HasKey(Fields().value, key)
                && Get(Fields().value, key) == Null
                && (forall k :: k != key ==> Get(Fields().value, k) == Get(old(Fields()).value, k))
                && Keys(Fields().value) == RemoveAll(Keys(old(Fields()).value), key)
      ensures forall k :: k != SKey("fields") ==> Get(config, k) == Get(old(config), k)
    {
      var fields := Get(config, SKey("fields"));
      ok := fields.Arr? || fields == Null || fields == Bool(false);
      if fields.Arr? {
        var f := Unset(fields.entries, key);
        UnsetKeys(fields.entries, key);
        RemoveAllSpec(Keys(fields.entries), key);
        forall k ensures Get(f, k) == if k == key then Null else Get(fields.entries, k) {
          UnsetGet(fields.entries, key, k);
        }
        UpdateEntry(SKey("fields"), Arr(f));
      }
    }

    /** setApiUrl */
    method SetApiUrl(url: string)
      requires Valid()
      modifies this`config
      ensures Valid()
      ensures Get(config, SKey("apiUrl")) == Str(url)
      ensures forall k :: k != SKey("apiUrl") ==> Get(config, k) == Get(old(config), k)
    {
      SetConfig(SKey("apiUrl"), Str(url));
    }

    /** setSearchEnabled */
    method SetSearchEnabled(enabled: bool)
      requires Valid()
      modifies this`config
      ensures Valid()
      ensures Get(config, SKey("searchEnabled")) == Bool(enabled)
      ensures forall k :: k != SKey("searchEnabled") ==> Get(config, k) == Get(old(config), k)
    {
      SetConfig(SKey("searchEnabled"), Bool(enabled));
    }

    /** setPaginationEnabled */
    method SetPaginationEnabled(enabled: bool)
      requires Valid()
      modifies this`config
      ensures Valid()
      ensures Get(config, SKey("paginationEnabled")) == Bool(enabled)
      ensures forall k :: k != SKey("paginationEnabled") ==> Get(config, k) == Get(old(config), k)
    {
      SetConfig(SKey("paginationEnabled"), Bool(enabled));
    }

    /** Replaces the value of a key that is already set, keeping the key order. */
    method UpdateEntry(key: Key, value: Value)
      requires Valid() && IsSet(config, key)
      modifies this`config
      ensures Valid()
      ensures Get(config, key) == value
      ensures forall k :: k != key ==> Get(config, k) == Get(old(config), k)
      ensures Keys(config) == Keys(old(config))
    {
      assert HasKey(config, key) by {
        if !HasKey(config, key) { GetAbsent(config, key); }
      }
      SetConfig(key, value);
    }

    /** The record getConfigJson encodes: the table, the field keys in order as
        the columns, the fields as the headers, and the sortable list. When the
        fields entry is not an array, array_keys raises a TypeError (None here). */
    function ConfigJson(): (r: Option<ConfigShape>)
      reads this
      ensures r.Some? <==> Fields().Some?
      ensures r.Some? ==> r.value.headers == Fields().value && r.value.columns == Keys(Fields().value)
    {
      var fields := Get(config, SKey("fields"));
      if fields.Arr?
      then Some(ConfigShape(Get(config, SKey("table")), Keys(fields.entries), fields.entries,
                            Get(config, SKey("sortable"))))
      else None
    }
  }
}
