/** `get_nested_field_value` (`accounts/utils.py`), which reads a field,
    or a dotted path of fields, of an object for the export views. */
module AccountsUtils {
  import opened Common

  /** A Python value as the helper sees it: `None`, a plain value, or an
      object with attributes and `get_<field>_display` getters (the map
      `displays` gives, for each field with such a getter, what it
      returns). */
  datatype Value =
    | Null
    | Text(text: string)
    | Number(n: int)
    | Obj(attrs: map<string, Value>, displays: map<string, string>)

  /** Following a path of attribute names: `None` as soon as the value is
      `None` or lacks the next attribute. */
  function Follow(v: Value, path: seq<string>): Value
    decreases |path|
  {
    if path == [] then v
    else if v.Obj? && path[0] in v.attrs then Follow(v.attrs[path[0]], path[1..])
    else Null
  }

  /** What the helper returns for `obj` and `fieldName`. */
  function NestedFieldValue(obj: Value, fieldName: string): Value {
    if obj.Null? then Null
    else if '.' in fieldName then Follow(obj, Split(fieldName, '.'))
    else if obj.Obj? && fieldName in obj.displays then Text(obj.displays[fieldName])
    else if obj.Obj? && fieldName in obj.attrs then obj.attrs[fieldName]
    else Null
  }

  /** `get_nested_field_value`: the dotted path is walked with a loop that
      reassigns `value` and returns early on `None` or a missing
      attribute. */
  method GetNestedFieldValue(obj: Value, fieldName: string) returns (r: Value)
    ensures r == NestedFieldValue(obj, fieldName)
  {
    if obj.Null? {
      return Null;
    }
    if '.' in fieldName {
      var parts := Split(fieldName, '.');
      var value := obj;
      var i := 0;
      while i < |parts|
        invariant 0 <= i <= |parts|
        invariant Follow(obj, parts) == Follow(value, parts[i..])
      {
        assert parts[i..][0] == parts[i] && parts[i..][1..] == parts[i + 1..];
        if value.Null? {
          return Null;
        }
        if value.Obj? && parts[i] in value.attrs {
          value := value.attrs[parts[i]];
        } else {
          return Null;
        }
        i := i + 1;
      }
      return value;
    }
    if obj.Obj? && fieldName in obj.displays {
      return Text(obj.displays[fieldName]);
    }
    if obj.Obj? && fieldName in obj.attrs {
      return obj.attrs[fieldName];
    }
    return Null;
  }

  /** Walking a path in two pieces is walking it in one: once `None` is
      reached the rest of the path changes nothing. */
  lemma {:induction false} FollowAppend(v: Value, a: seq<string>, b: seq<string>)
    ensures Follow(v, a + b) == Follow(Follow(v, a), b)
    decreases |a|
  {
    if a == [] {
      assert a + b == b;
    } else {
      assert (a + b)[0] == a[0] && (a + b)[1..] == a[1..] + b;
      if v.Obj? && a[0] in v.attrs {
        FollowAppend(v.attrs[a[0]], a[1..], b);
      } else {
        assert Follow(Null, b) == Null;
      }
    }
  }

  /** A dotted path that meets `None`, a plain value or a missing attribute
      part way yields `None` whatever follows. */
  lemma DottedPathStops(obj: Value, a: seq<string>, b: seq<string>)
    requires Follow(obj, a).Null? || (b != [] && !(Follow(obj, a).Obj? && b[0] in Follow(obj, a).attrs))
    ensures Follow(obj, a + b).Null?
  {
    FollowAppend(obj, a, b);
  }

  /** A dotted path never calls a display getter: with other getters the
      object gives the same value. */
  lemma DottedPathIgnoresDisplays(attrs: map<string, Value>, displays: map<string, string>,
                                   otherDisplays: map<string, string>, fieldName: string)
    requires '.' in fieldName
    ensures NestedFieldValue(Obj(attrs, displays), fieldName) == NestedFieldValue(Obj(attrs, otherDisplays), fieldName)
  {
    var parts := Split(fieldName, '.');
    assert parts != [];
  }

  /** For a plain name the display getter wins over the attribute; without
      a getter a plain name is read as the one-step path, so a missing
      attribute yields `None`. */
  lemma PlainNameReading(obj: Value, fieldName: string)
    requires '.' !in fieldName
    ensures obj.Obj? && fieldName in obj.displays ==>
      NestedFieldValue(obj, fieldName) == Text(obj.displays[fieldName])
    ensures !(obj.Obj? && fieldName in obj.displays) ==>
      NestedFieldValue(obj, fieldName) == Follow(obj, [fieldName])
  {
    assert [fieldName][1..] == [];
  }

  /** `None` in gives `None` out, whatever the name. */
  lemma NullObjectGivesNull(fieldName: string)
    ensures NestedFieldValue(Null, fieldName) == Null
  {
  }
}
