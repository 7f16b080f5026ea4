/** The filter's four documented scenarios, each run against an event built as the
    scenario builds it, with the random texts and limits taken as parameters. */
module TruncateScenarios {
  import opened Utf8
  import opened Values
  import opened Truncate

  /** The event of the defaults scenario: a string one map deep, one two maps deep
      and one at the top level. */
  function DefaultsData(bar: seq<byte>, three: seq<byte>, baz: seq<byte>): map<string, Value> {
    map["foo" := Obj(map["bar" := Str(bar)]),
        "one" := Obj(map["two" := Obj(map["three" := Str(three)])]),
        "baz" := Str(baz)]
  }

  /** `[foo][bar]` reads the cut of `bar` after filtering. */
  lemma DefaultsFooBar(bar: seq<byte>, three: seq<byte>, baz: seq<byte>, length: nat)
    ensures Lookup(Obj(Filtered(DefaultsData(bar, three, baz), length, [])), [Key("foo"), Key("bar")])
      == Some(Str(Cut(bar, length)))
  {
    var data := DefaultsData(bar, three, baz);
    LookupKey(data, "foo", [Key("bar")]);
    LookupKey(data["foo"].entries, "bar", []);
    assert [Key("bar")] + [] == [Key("bar")];
    FilteredLookup(data, length, [], "foo", [Key("bar")]);
    assert [Key("foo")] + [Key("bar")] == [Key("foo"), Key("bar")];
  }

  /** `[one][two][three]` reads the cut of `three` after filtering. */
  lemma DefaultsOneTwoThree(bar: seq<byte>, three: seq<byte>, baz: seq<byte>, length: nat)
    ensures Lookup(Obj(Filtered(DefaultsData(bar, three, baz), length, [])), [Key("one"), Key("two"), Key("three")])
      == Some(Str(Cut(three, length)))
  {
    var data := DefaultsData(bar, three, baz);
    var one := data["one"].entries;
    LookupKey(data, "one", [Key("two"), Key("three")]);
    LookupKey(one, "two", [Key("three")]);
    assert [Key("two")] + [Key("three")] == [Key("two"), Key("three")];
    LookupKey(one["two"].entries, "three", []);
    assert [Key("three")] + [] == [Key("three")];
    FilteredLookup(data, length, [], "one", [Key("two"), Key("three")]);
    assert [Key("one")] + [Key("two"), Key("three")] == [Key("one"), Key("two"), Key("three")];
  }

  /** No `fields` option: strings at the top level, one map deep and two maps deep all
      end up within the limit, and still sit at the same paths. */
  method Defaults(bar: seq<byte>, three: seq<byte>, baz: seq<byte>, length: nat)
    returns (fooBar: Option<Value>, oneTwoThree: Option<Value>, bazOut: Option<Value>)
    ensures fooBar.Some? && fooBar.value.Str? && |fooBar.value.bytes| <= length
    ensures oneTwoThree.Some? && oneTwoThree.value.Str? && |oneTwoThree.value.bytes| <= length
    ensures bazOut.Some? && bazOut.value.Str? && |bazOut.value.bytes| <= length
    ensures fooBar == Some(Str(Cut(bar, length)))
    ensures oneTwoThree == Some(Str(Cut(three, length)))
    ensures bazOut == Some(Str(Cut(baz, length)))
  {
    var data := DefaultsData(bar, three, baz);
    var event := new Event(data);
    var filter := new Truncator(length, []);
    filter.Filter(event);

    fooBar := event.Get([Key("foo"), Key("bar")]);
    DefaultsFooBar(bar, three, baz, length);
    oneTwoThree := event.Get([Key("one"), Key("two"), Key("three")]);
    DefaultsOneTwoThree(bar, three, baz, length);
    bazOut := event.Get([Key("baz")]);
  }

  /** `fields => ["example"]` over an event holding the same text in `message` and
      `example`: `example` is cut to the limit and stays well-formed, `message` is
      exactly the original text. */
  method StringFields(text: seq<byte>, length: nat) returns (example: Option<Value>, message: Option<Value>)
    requires ValidUtf8(text)
    ensures example.Some? && example.value.Str?
    ensures |example.value.bytes| <= length && ValidUtf8(example.value.bytes)
    ensures message == Some(Str(text))
  {
    var data := map["message" := Str(text), "example" := Str(text)];
    var event := new Event(data);
    var filter := new Truncator(length, ["example"]);
    filter.Filter(event);

    FilteredLookup(data, length, ["example"], "example", []);
    assert [Key("example")] + [] == [Key("example")];
    example := event.Get([Key("example")]);

    FilteredLookup(data, length, ["example"], "message", []);
    assert [Key("message")] + [] == [Key("message")];
    message := event.Get([Key("message")]);
  }

  /** `fields => ["example"]` over an integer field: the integer is left as it was. */
  method NonStringFields(number: int, length: nat) returns (example: Option<Value>)
    ensures example == Some(Int(number))
  {
    var data := map["example" := Int(number)];
    var event := new Event(data);
    var filter := new Truncator(length, ["example"]);
    filter.Filter(event);

    FilteredLookup(data, length, ["example"], "example", []);
    assert [Key("example")] + [] == [Key("example")];
    example := event.Get([Key("example")]);
  }

  /** `fields => ["example"]` over a list of texts (possibly empty): every index of the
      list still holds a string, now within the limit. */
  method ArrayFields(list: seq<seq<byte>>, length: nat) returns (elements: seq<Option<Value>>)
    ensures |elements| == |list|
    ensures forall i :: 0 <= i < |list| ==>
      elements[i].Some? && elements[i].value.Str? && |elements[i].value.bytes| <= length
  {
    var data := map["example" := Arr(seq(|list|, i requires 0 <= i < |list| => Str(list[i])))];
    var event := new Event(data);
    var filter := new Truncator(length, ["example"]);
    filter.Filter(event);

    elements := [];
    for i := 0 to |list|
      invariant event.fields == Filtered(data, length, ["example"])
      invariant |elements| == i
      invariant forall j :: 0 <= j < i ==>
        elements[j].Some? && elements[j].value.Str? && |elements[j].value.bytes| <= length
    {
      FilteredLookup(data, length, ["example"], "example", [Index(i)]);
      assert [Key("example")] + [Index(i)] == [Key("example"), Index(i)];
      assert Lookup(Obj(data), [Key("example"), Index(i)]) == Some(Str(list[i])) by {
        assert [Key("example"), Index(i)][1..] == [Index(i)];
        assert data["example"].items[i] == Str(list[i]);
        assert Lookup(Str(list[i]), []) == Some(Str(list[i]));
        assert [Index(i)][1..] == [];
      }
      var element := event.Get([Key("example"), Index(i)]);
      elements := elements + [element];
    }
  }
}
