/** common/serializers.py: a serializer that drops the fields named in its `exclude_fields`
    keyword argument, which it takes out of the keyword arguments before the parent
    Serializer sees them. */
module Serializers {
  import opened Wrappers

  /** A declared serializer field; only its presence under a name matters here. */
  datatype Field = Field(kind: string)

  /** A keyword argument's value: a list of names, None, or some other value. */
  datatype Arg = Names(names: seq<string>) | NoneValue | Other(text: string)

  /** The keyword this serializer consumes. */
  const ExcludeKey: string := "exclude_fields"

  /** The fields after `self.fields.pop(name)` for each name in turn: `pop` has no default,
      so the first name not present (never declared, or already popped) raises KeyError(name). */
  function Excluded(fields: map<string, Field>, names: seq<string>): Result<map<string, Field>, string>
    decreases |names|
  {
    if names == [] then Ok(fields)
    else if names[0] !in fields then Err(names[0])
    else Excluded(fields - {names[0]}, names[1..])
  }

  /** When every name is popped, exactly the listed names are gone and every other field is kept. */
  lemma {:induction false} ExcludedDropsExactlyTheNames(fields: map<string, Field>, names: seq<string>)
    requires Excluded(fields, names).Ok?
    ensures Excluded(fields, names).value == fields - set n | n in names
    decreases |names|
  {
    if names != [] {
      ExcludedDropsExactlyTheNames(fields - {names[0]}, names[1..]);
      assert (fields - {names[0]}) - (set n | n in names[1..]) == fields - (set n | n in names);
    }
  }

  /** The exclusion raises exactly when some listed name is not a field or is listed twice, and it
      names the first such entry. */
  lemma {:induction false} ExcludedFailsOnMissingName(fields: map<string, Field>, names: seq<string>)
    ensures Excluded(fields, names).Err? <==>
      exists i :: 0 <= i < |names| && (names[i] !in fields || names[i] in names[..i])
    ensures Excluded(fields, names).Err? ==>
      exists i :: 0 <= i < |names| && (names[i] !in fields || names[i] in names[..i])
        && Excluded(fields, names).error == names[i]
        && forall j :: 0 <= j < i ==> names[j] in fields && names[j] !in names[..j]
    decreases |names|
  {
    if names != [] && names[0] in fields {
      var rest := fields - {names[0]};
      var tail := names[1..];
      ExcludedFailsOnMissingName(rest, tail);
      forall i | 0 <= i < |tail|
        ensures (tail[i] !in rest || tail[i] in tail[..i]) <==> (names[i + 1] !in fields || names[i + 1] in names[..i + 1])
      {
        assert names[..i + 1] == [names[0]] + tail[..i];
      }
      if Excluded(fields, names).Err? {
        var i :| 0 <= i < |tail| && (tail[i] !in rest || tail[i] in tail[..i])
          && Excluded(rest, tail).error == tail[i]
          && forall j :: 0 <= j < i ==> tail[j] in rest && tail[j] !in tail[..j];
        forall j | 0 <= j < i + 1 ensures names[j] in fields && names[j] !in names[..j] {
          if j > 0 {
            assert names[..j] == [names[0]] + tail[..j - 1];
          }
        }
      } else {
        forall i | 0 <= i < |names| ensures !(names[i] !in fields || names[i] in names[..i]) {
          if i > 0 {
            assert names[..i] == [names[0]] + tail[..i - 1];
          }
        }
      }
    }
  }

  /** A `DymanicFieldSerializer` object. */
  class DynamicFieldSerializer {
    var fields: map<string, Field>
    var forwarded: map<string, Arg>

    constructor ()
      ensures fields == map[] && forwarded == map[]
    {
      fields, forwarded := map[], map[];
    }

    /** `__init__`: pop `exclude_fields` from the keyword arguments, initialise the parent with
        the rest (its fields are `declared`), then pop each excluded name from `fields`.
        Returns the name of the KeyError raised, if any. */
    method Init(declared: map<string, Field>, kwargs: map<string, Arg>) returns (raised: Option<string>)
      requires ExcludeKey in kwargs ==> !kwargs[ExcludeKey].Other?
      modifies this
      ensures forwarded == kwargs - {ExcludeKey} && ExcludeKey !in forwarded
      ensures ExcludeKey !in kwargs || kwargs[ExcludeKey].NoneValue? ==> raised == None && fields == declared
      ensures ExcludeKey in kwargs && kwargs[ExcludeKey].Names? ==>
        match Excluded(declared, kwargs[ExcludeKey].names)
        case Ok(kept) => raised == None && fields == kept
        case Err(name) => raised == Some(name)
    {
      var exclude := if ExcludeKey in kwargs then kwargs[ExcludeKey] else NoneValue;
      forwarded := kwargs - {ExcludeKey};
      fields := declared;
      raised := None;
      if exclude.Names? {
        var names := exclude.names;
        var i := 0;
        while i < |names|
          invariant 0 <= i <= |names|
          invariant Excluded(declared, names) == Excluded(fields, names[i..])
          invariant forwarded == kwargs - {ExcludeKey}
        {
          var name := names[i];
          if name !in fields {
            return Some(name);
          }
          fields := fields - {name};
          i := i + 1;
        }
      }
    }
  }
}
