/** The values an event holds and the recursive rewrite that truncates every
    string inside one of them. */
module Values {
  import opened Utf8

  datatype Option<+T> = None | Some(value: T)

  /** A field value: a string (its UTF-8 bytes), an integer, an ordered list or a
      nested map from field names to values. */
  datatype Value =
    | Str(bytes: seq<byte>)
    | Int(n: int)
    | Arr(items: seq<Value>)
    | Obj(entries: map<string, Value>)

  /** Every string anywhere inside `v` is at most `limit` bytes long. */
  predicate StringsWithin(v: Value, limit: nat)
    decreases v
  {
    match v
    case Str(b) => |b| <= limit
    case Int(_) => true
    case Arr(items) => forall i :: 0 <= i < |items| ==> StringsWithin(items[i], limit)
    case Obj(m) => forall k :: k in m ==> StringsWithin(m[k], limit)
  }

  /** Every string anywhere inside `v` is well-formed UTF-8. */
  predicate AllValid(v: Value)
    decreases v
  {
    match v
    case Str(b) => ValidUtf8(b)
    case Int(_) => true
    case Arr(items) => forall i :: 0 <= i < |items| ==> AllValid(items[i])
    case Obj(m) => forall k :: k in m ==> AllValid(m[k])
  }

  /** `r` is `v` with, at most, its strings shortened: the same shape, the same list
      lengths, the same map keys, the same integers, and each string a prefix of the
      string in the same place in `v`. */
  predicate IsTruncationOf(r: Value, v: Value)
    decreases v
  {
    match v
    case Str(b) => r.Str? && |r.bytes| <= |b| && r.bytes == b[..|r.bytes|]
    case Int(n) => r == Int(n)
    case Arr(items) =>
      r.Arr? && |r.items| == |items| &&
      forall i :: 0 <= i < |items| ==> IsTruncationOf(r.items[i], items[i])
    case Obj(m) =>
      r.Obj? && r.entries.Keys == m.Keys &&
      forall k :: k in m ==> IsTruncationOf(r.entries[k], m[k])
  }

  /** Truncate every string inside `v` to at most `limit` bytes with the byte-safe cut,
      descending into lists element by element and into maps value by value, and
      leaving integers alone. */
  function TruncateValue(v: Value, limit: nat): (r: Value)
    ensures StringsWithin(r, limit)
    ensures IsTruncationOf(r, v)
    decreases v
  {
    match v
    case Str(b) => Str(Cut(b, limit))
    case Int(_) => v
    case Arr(items) =>
      Arr(seq(|items|, i requires 0 <= i < |items| => TruncateValue(items[i], limit)))
    case Obj(m) => Obj(map k | k in m :: TruncateValue(m[k], limit))
  }

  /** Well-formed strings stay well-formed: the cut never splits a character. */
  lemma {:induction false} TruncateKeepsValid(v: Value, limit: nat)
    requires AllValid(v)
    ensures AllValid(TruncateValue(v, limit))
    decreases v
  {
    match v
    case Str(_) =>
    case Int(_) =>
    case Arr(items) =>
      forall i | 0 <= i < |items|
        ensures AllValid(TruncateValue(v, limit).items[i])
      {
        TruncateKeepsValid(items[i], limit);
      }
    case Obj(m) =>
      forall k | k in m
        ensures AllValid(TruncateValue(v, limit).entries[k])
      {
        TruncateKeepsValid(m[k], limit);
      }
  }

  /** A value whose strings all fit is left exactly as it was. */
  lemma {:induction false} TruncateFitting(v: Value, limit: nat)
    requires StringsWithin(v, limit)
    ensures TruncateValue(v, limit) == v
    decreases v
  {
    match v
    case Str(_) =>
    case Int(_) =>
    case Arr(items) =>
      var r := TruncateValue(v, limit);
      forall i | 0 <= i < |items|
        ensures r.items[i] == items[i]
      {
        TruncateFitting(items[i], limit);
      }
      assert r.items == items;
    case Obj(m) =>
      var r := TruncateValue(v, limit);
      forall k | k in m
        ensures r.entries[k] == m[k]
      {
        TruncateFitting(m[k], limit);
      }
      assert r.entries == m;
  }

  /** Truncating twice with the same limit is the same as truncating once. */
  lemma {:induction false} TruncateIdempotent(v: Value, limit: nat)
    ensures TruncateValue(TruncateValue(v, limit), limit) == TruncateValue(v, limit)
  {
    TruncateFitting(TruncateValue(v, limit), limit);
  }

  /** One step of a path into a value: a map key or a list index. */
  datatype Step = Key(name: string) | Index(i: nat)

  /** The value reached from `v` by following `path`, or None when the path leaves the
      tree (a missing key, an index past the end, or a step into a string or integer). */
  function Lookup(v: Value, path: seq<Step>): (r: Option<Value>)
    ensures path == [] ==> r == Some(v)
    ensures r.Some? && path != [] ==>
      (path[0].Key? && v.Obj? && path[0].name in v.entries) ||
      (path[0].Index? && v.Arr? && path[0].i < |v.items|)
    decreases |path|
  {
    if path == [] then Some(v)
    else match (v, path[0])
      case (Obj(m), Key(k)) => if k in m then Lookup(m[k], path[1..]) else None
      case (Arr(items), Index(i)) => if i < |items| then Lookup(items[i], path[1..]) else None
      case _ => None
  }

  /** A path that starts with a key steps into that key's value. */
  lemma LookupKey(m: map<string, Value>, name: string, rest: seq<Step>)
    ensures Lookup(Obj(m), [Key(name)] + rest) == if name in m then Lookup(m[name], rest) else None
  {
    assert ([Key(name)] + rest)[1..] == rest;
  }

  /** Truncation keeps every path: a path reaches something after truncation exactly
      when it did before, and what it reaches is the truncation of what it reached;
      a string found there has been cut, an integer found there is unchanged. */
  lemma {:induction false} LookupTruncated(v: Value, path: seq<Step>, limit: nat)
    ensures Lookup(TruncateValue(v, limit), path).Some? <==> Lookup(v, path).Some?
    ensures Lookup(v, path).Some? ==>
      Lookup(TruncateValue(v, limit), path) == Some(TruncateValue(Lookup(v, path).value, limit))
    ensures forall b :: Lookup(v, path) == Some(Str(b)) ==>
      Lookup(TruncateValue(v, limit), path) == Some(Str(Cut(b, limit)))
    ensures forall n :: Lookup(v, path) == Some(Int(n)) ==>
      Lookup(TruncateValue(v, limit), path) == Some(Int(n))
    decreases |path|
  {
    if path != [] {
      match (v, path[0])
      case (Obj(m), Key(k)) =>
        if k in m {
          LookupTruncated(m[k], path[1..], limit);
        }
      case (Arr(items), Index(i)) =>
        if i < |items| {
          LookupTruncated(items[i], path[1..], limit);
        }
      case _ =>
    }
  }

  /** When every string in `v` fits, so does every string any path reaches, at any depth. */
  lemma {:induction false} WithinAlongPath(v: Value, path: seq<Step>, limit: nat)
    requires StringsWithin(v, limit)
    ensures forall b :: Lookup(v, path) == Some(Str(b)) ==> |b| <= limit
    decreases |path|
  {
    if path != [] {
      match (v, path[0])
      case (Obj(m), Key(k)) =>
        if k in m {
          WithinAlongPath(m[k], path[1..], limit);
        }
      case (Arr(items), Index(i)) =>
        if i < |items| {
          WithinAlongPath(items[i], path[1..], limit);
        }
      case _ =>
    }
  }
}
