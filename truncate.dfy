/** The truncate filter: an event is a mutable map of top-level fields, and the
    filter rewrites the fields in scope in place so that no string in them is longer
    than the configured number of bytes. */
module Truncate {
  import opened Utf8
  import opened Values

  /** A field is in scope when no `fields` option is given (an empty list) or when
      the option names it. */
  predicate InScope(name: string, selected: seq<string>) {
    |selected| == 0 || name in selected
  }

  /** The event's fields after filtering: each field in scope truncated, every other
      field as it was. */
  function Filtered(fields: map<string, Value>, limit: nat, selected: seq<string>): (r: map<string, Value>)
    ensures r.Keys == fields.Keys
    ensures forall k :: k in fields && InScope(k, selected) ==>
      StringsWithin(r[k], limit) && IsTruncationOf(r[k], fields[k])
    ensures forall k :: k in fields && !InScope(k, selected) ==> r[k] == fields[k]
  {
    map k | k in fields :: if InScope(k, selected) then TruncateValue(fields[k], limit) else fields[k]
  }

  /** Filtering keeps well-formed text well-formed: each field that held only
      well-formed strings still does, whatever the other fields hold. */
  lemma FilteredKeepsValid(fields: map<string, Value>, limit: nat, selected: seq<string>)
    ensures forall k :: k in fields && AllValid(fields[k]) ==>
      AllValid(Filtered(fields, limit, selected)[k])
  {
    forall k | k in fields && InScope(k, selected) && AllValid(fields[k]) {
      TruncateKeepsValid(fields[k], limit);
    }
  }

  /** With no `fields` option, every string the filtered event holds, reached by any
      path at any depth, fits the limit. */
  lemma FilteredAllWithin(fields: map<string, Value>, limit: nat, path: seq<Step>)
    ensures forall b :: Lookup(Obj(Filtered(fields, limit, [])), path) == Some(Str(b)) ==> |b| <= limit
  {
    var filtered := Filtered(fields, limit, []);
    assert StringsWithin(Obj(filtered), limit);
    WithinAlongPath(Obj(filtered), path, limit);
  }

  /** Filtering an event a second time with the same settings changes nothing. */
  lemma FilteredIdempotent(fields: map<string, Value>, limit: nat, selected: seq<string>)
    ensures Filtered(Filtered(fields, limit, selected), limit, selected) == Filtered(fields, limit, selected)
  {
    var once := Filtered(fields, limit, selected);
    forall k | k in fields && InScope(k, selected) {
      TruncateIdempotent(fields[k], limit);
    }
    assert Filtered(once, limit, selected) == once;
  }

  /** Reading a path that starts at top-level field `name` after filtering: in scope,
      it reaches the truncation of what it reached before (and nothing where nothing
      was); out of scope, exactly what it reached before. */
  lemma FilteredLookup(fields: map<string, Value>, limit: nat, selected: seq<string>,
                       name: string, rest: seq<Step>)
    ensures var before := Lookup(Obj(fields), [Key(name)] + rest);
            var after := Lookup(Obj(Filtered(fields, limit, selected)), [Key(name)] + rest);
            if InScope(name, selected) then
              (after.Some? <==> before.Some?) &&
              (before.Some? ==> after == Some(TruncateValue(before.value, limit)))
            else after == before
  {
    var path := [Key(name)] + rest;
    assert path[1..] == rest;
    if name in fields && InScope(name, selected) {
      LookupTruncated(fields[name], rest, limit);
    }
  }

  /** An event: its top-level fields, which the filter updates in place. */
  class Event {
    var fields: map<string, Value>

    constructor (data: map<string, Value>)
      ensures fields == data
    {
      fields := data;
    }

    /** The value at `path`, the first step naming a top-level field: a single name
        gives that field's value, or nothing when the event lacks it. */
    function Get(path: seq<Step>): (r: Option<Value>)
      reads this
      ensures |path| == 1 && path[0].Key? ==>
        r == if path[0].name in fields then Some(fields[path[0].name]) else None
      ensures r.Some? && |path| > 0 ==> path[0].Key? && path[0].name in fields
    {
      Lookup(Obj(fields), path)
    }
  }

  /** The filter plugin, configured once with `length_bytes` and the optional `fields`. */
  class Truncator {
    const lengthBytes: nat
    const selected: seq<string>

    constructor (lengthBytes: nat, selected: seq<string>)
      ensures this.lengthBytes == lengthBytes && this.selected == selected
    {
      this.lengthBytes := lengthBytes;
      this.selected := selected;
    }

    /** Truncate the event's in-scope fields in place: every top-level field when no
        `fields` are configured, otherwise each configured name the event has. */
    method Filter(event: Event)
      modifies event
      ensures event.fields == Filtered(old(event.fields), lengthBytes, selected)
    {
      if |selected| == 0 {
        FilterAll(event);
      } else {
        FilterSelected(event);
      }
    }

    /** Visit every top-level field of the event, in no particular order. */
    method FilterAll(event: Event)
      requires |selected| == 0
      modifies event
      ensures event.fields == Filtered(old(event.fields), lengthBytes, selected)
    {
      ghost var before := event.fields;
      var todo := event.fields.Keys;
      while todo != {}
        invariant todo <= before.Keys && event.fields.Keys == before.Keys
        invariant forall k :: k in before ==>
          event.fields[k] == if k in todo then before[k] else TruncateValue(before[k], lengthBytes)
        decreases todo
      {
        var name :| name in todo;
        event.fields := event.fields[name := TruncateValue(event.fields[name], lengthBytes)];
        todo := todo - {name};
      }
    }

    /** Visit each configured name in order, skipping names the event lacks; a name
        listed twice is truncated again, which changes nothing. */
    method FilterSelected(event: Event)
      requires |selected| > 0
      modifies event
      ensures event.fields == Filtered(old(event.fields), lengthBytes, selected)
    {
      ghost var before := event.fields;
      for i := 0 to |selected|
        invariant event.fields.Keys == before.Keys
        invariant forall k :: k in before ==>
          event.fields[k] == if k in selected[..i] then TruncateValue(before[k], lengthBytes) else before[k]
      {
        var name := selected[i];
        if name in event.fields {
          TruncateIdempotent(before[name], lengthBytes);
          event.fields := event.fields[name := TruncateValue(event.fields[name], lengthBytes)];
        }
        assert selected[..i + 1] == selected[..i] + [name];
      }
      assert selected[..|selected|] == selected;
      ghost var expected := Filtered(before, lengthBytes, selected);
      assert forall k :: k in before ==> event.fields[k] == expected[k];
      assert event.fields == expected;
    }
  }
}
