# Truncate filter: a verified model

This project models `LogStash::Filters::Truncate`, a Logstash filter that bounds
the byte length of the strings inside an event. An event is a map from field
names to values. A value is a string, an integer, an ordered list of values or a
nested map. The filter is configured with `length_bytes` and, optionally, a list
of top-level `fields`. On `filter(event)` it visits every top-level field (no
`fields` given) or only the named ones. It descends into lists element by element
and into maps value by value. Every string it meets is cut to at most
`length_bytes` bytes. Integers are left alone.

The cut never ends inside a multi-byte UTF-8 character. It keeps the longest
prefix of at most `length_bytes` bytes that is still well-formed UTF-8, in the
sense of sections 3 and 4 of RFC 3629.

Modules:

- `Utf8` (`utf8.dfy`): bytes and the well-formedness rules of RFC 3629, section 4.
  It also holds the byte-safe cut `Cut` and its proofs: the cut never splits a
  character, it backs off at most 3 bytes, and it stops just before a lead byte.
- `Values` (`values.dfy`): the value tree and the recursive rewrite `TruncateValue`.
  It also holds structured paths (`Lookup`) standing in for the event's field
  references, such as `[foo][bar]` and `[example][3]`.
- `Truncate` (`truncate.dfy`): the `Event` class, whose `fields` map is updated in
  place, and the `Truncator` class, the configured plugin. `Truncator.Filter` loops
  over the top-level fields and is proved equal to the function `Filtered`.
- `TruncateScenarios` (`truncate_spec.dfy`): the four documented scenarios
  (defaults, string fields, non-string fields, list fields). Each is written as a
  client method that builds the event, runs the filter and reads the fields back.
  The random texts and limits become universally quantified parameters.

The filter's implementation file, `lib/logstash/filters/truncate.rb`, is not part
of this model. Its test suite asserts only these facts:
- in-scope strings are at most `length_bytes` bytes after filtering;
- a selected string field is valid UTF-8 afterwards;
- a field outside `fields` is unchanged;
- an integer field is unchanged;
- the nested and list paths still reach strings.

An empty result would satisfy the length and encoding assertions. The model
promises more than the tests check. These promises come from the filter's design,
not from its tests:
- the cut keeps a prefix of the text, and it is the longest well-formed prefix
  within the limit;
- a string already within the limit is left as it is;
- the value keeps its shape: list lengths, map keys and integers;
- filtering twice gives the same event as filtering once;
- an empty `fields` list means "every field";
- a configured name the event lacks is skipped.

## Model

| member | source | states |
|---|---|---|
| `Utf8.LeadLength` | spec/filters/truncate_spec.rb:51 | Gives the length of the character a lead byte starts, from 1 to 4 bytes, or 0 for a byte that starts none. A byte with a nonzero length is never a continuation byte. The length is 1 exactly for the ASCII bytes below 0x80. |
| `Utf8.CharLength` | spec/filters/truncate_spec.rb:51 | Gives the length of the well-formed character (the UTF8-char rule of RFC 3629, section 4) that a byte sequence starts with, or 0 if there is none. The length is at most 4 and fits in the sequence. A nonzero length equals the lead byte's length, and all bytes after the lead are continuation bytes. |
| `Utf8.ValidUtf8` | spec/filters/truncate_spec.rb:51 | Defines what `be_valid_encoding` checks: the bytes split into whole well-formed characters. Well-formed non-empty text starts with a lead byte, never with a continuation byte. |
| `Utf8.Cut` | spec/filters/truncate_spec.rb:50-51 | The result is at most `length_bytes` bytes long. It is a prefix of the input. An input that already fits, including the empty string, is returned whole. A well-formed input gives a well-formed result. When the input is longer than the limit, no longer prefix up to the limit is well-formed. |
| `Utf8.LongestValidPrefix` | spec/filters/truncate_spec.rb:50-51 | Returns the largest `j <= k` whose `j`-byte prefix is well-formed UTF-8; every longer prefix up to `k` is not well-formed. |
| `Utf8.PrefixValidIff` | spec/filters/truncate_spec.rb:51 | Take well-formed text and a position `k`. The `k`-byte prefix is well-formed exactly when `k` is the end of the text or the byte at `k` is not a continuation byte. This holds in both directions. |
| `Utf8.BoundaryNear` | spec/filters/truncate_spec.rb:51 | In well-formed text, every position has a character boundary at most 3 bytes before it. |
| `Utf8.CutBacksOffToBoundary` | spec/filters/truncate_spec.rb:50-51 | On well-formed text longer than the limit, the cut backs off at most 3 bytes below the limit. It stops at the last character start at or below the limit. The byte right after the cut starts a character, and every later byte up to and including index `limit` is a continuation byte. |
| `Utf8.CyrillicPrefixCut` | spec/filters/truncate_spec.rb:40-41 | On the opening bytes of the mixed Cyrillic/Latin text, a limit of 5 keeps "БCEi" whole. A limit of 1 would fall inside the two-byte "Б", so nothing is kept. |
| `Utf8.MalformedInputCut` | spec/filters/truncate_spec.rb:51 | Malformed input is not repaired: for the bytes FF 61 62 with a limit of 2, the cut keeps nothing, because no non-empty prefix is well-formed. |
| `Values.Lookup` | spec/filters/truncate_spec.rb:31-33 | Follows a path of map keys and list indices, as `event.get("[foo][bar]")` does. The empty path reaches the value itself. A non-empty path reaches something only if its first step is a key present in a map or an index inside a list. |
| `Values.TruncateValue` | spec/filters/truncate_spec.rb:30-33 | After truncation every string at any depth is at most `length_bytes` bytes. The value keeps its shape: the same list lengths, the same map keys and the same integers, with each string a prefix of the original. |
| `Values.TruncateKeepsValid` | spec/filters/truncate_spec.rb:51 | If every string in a value is well-formed UTF-8, every string in its truncation is too. |
| `Values.TruncateFitting` | spec/filters/truncate_spec.rb:19-24 | A value whose strings all fit within the limit is left exactly equal to itself. The random texts of up to 1000 characters often do fit. |
| `Values.TruncateIdempotent` | spec/filters/truncate_spec.rb:28 | Truncating twice with the same limit gives the same value as truncating once. |
| `Values.LookupTruncated` | spec/filters/truncate_spec.rb:31-33 | A path reaches something after truncation exactly when it did before, and it reaches the truncation of the old value. A string there becomes its cut, and an integer there is unchanged. |
| `Values.WithinAlongPath` | spec/filters/truncate_spec.rb:30-33 | If every string in a value fits the limit, so does every string reachable by any path, at any nesting depth. |
| `Truncate.Filtered` | spec/filters/truncate_spec.rb:42-56 | Filtering keeps the set of top-level field names. Each in-scope field becomes a truncation of itself with all strings within the limit. Every field outside the configured `fields` is unchanged. |
| `Truncate.FilteredKeepsValid` | spec/filters/truncate_spec.rb:51 | Each field that holds only well-formed strings before filtering still does afterwards, whatever the other fields hold. |
| `Truncate.FilteredAllWithin` | spec/filters/truncate_spec.rb:30-34 | With no `fields` option, every string that any path reaches in the filtered event fits within `length_bytes`, at any nesting depth. |
| `Truncate.FilteredIdempotent` | spec/filters/truncate_spec.rb:45-47 | Filtering an event a second time with the same settings changes nothing. |
| `Truncate.FilteredLookup` | spec/filters/truncate_spec.rb:50-56 | For a path that starts at an in-scope field, the path reaches something after filtering exactly when it did before, and it reaches the truncated old value. For a path that starts outside the scope, the result is exactly the old value. |
| `Truncate.Event.Get` | spec/filters/truncate_spec.rb:55 | Reads a value by path, as `event.get` does. A single top-level name gives that field's value, or nothing when the event lacks the field. A path reaches something only if its first step names a field the event has. |
| `Truncate.Event.constructor` | spec/filters/truncate_spec.rb:26 | A new event holds exactly the given fields. |
| `Truncate.Truncator.constructor` | spec/filters/truncate_spec.rb:25 | The plugin keeps the configured `length_bytes` and `fields`. |
| `Truncate.Truncator.Filter` | spec/filters/truncate_spec.rb:28 | The method rewrites the event's fields in place. The new map equals `Filtered` of the old map. |
| `Truncate.Truncator.FilterAll` | spec/filters/truncate_spec.rb:25-28 | With no `fields` configured, the method loops over every top-level key. The new map equals `Filtered` of the old map. |
| `Truncate.Truncator.FilterSelected` | spec/filters/truncate_spec.rb:42-46 | With `fields` configured, the method loops over the configured names in order and skips names the event lacks. The new map equals `Filtered` of the old map. A name listed twice is truncated again, which changes nothing. |
| `TruncateScenarios.Defaults` | spec/filters/truncate_spec.rb:16-35 | With no `fields` option, `[foo][bar]`, `[one][two][three]` and `baz` are still strings after filtering. Each is at most `length_bytes` bytes and is the cut of the original text. |
| `TruncateScenarios.StringFields` | spec/filters/truncate_spec.rb:37-57 | With `fields => ["example"]`, `example` is a string of at most `length_bytes` bytes and is well-formed UTF-8. `message` equals the original text. |
| `TruncateScenarios.NonStringFields` | spec/filters/truncate_spec.rb:59-69 | An integer in a selected field is unchanged after filtering. |
| `TruncateScenarios.ArrayFields` | spec/filters/truncate_spec.rb:71-85 | After filtering a list field, each of its `count` indices holds a string of at most `length_bytes` bytes. This includes `count = 0`. |

## Left out

- The "matched" signal: the filter reports to the host that something was shortened, for example by adding tags. That is a host side effect, and the test suite does not check it.
- Configuration loading and validation: registering the plugin and rejecting a missing or negative `length_bytes` belong to the host. In the model, `length_bytes` is a `nat`.
- Floats, booleans and nil values: the test suite does not use them. The model's values are strings, integers, lists and maps.
- The field-reference syntax (`"[foo][bar]"`, `"[example][0]"`): it belongs to the host's event class. The model reaches nested values through structured paths (`Step` sequences) instead.
- The fields `LogStash::Event.new` adds by itself (`@timestamp`, `@version`): they are host data. The model's event holds only the data it is built from.
- Input that is not well-formed UTF-8, and encodings other than UTF-8: the filter's behaviour on them is not documented. The model's `Cut` is defined for every byte sequence. When the input is longer than the limit, the result is always well-formed, even if the input is not. Malformed input is not repaired: the cut keeps only the longest well-formed prefix, so bytes after a stray byte are dropped too (see `Utf8.MalformedInputCut`). When malformed input already fits the limit, it is returned unchanged.
- Character-count lengths: the random texts are generated by character count. The model takes the bytes of each text directly, so any byte length is covered.
- The test framework's repetition (`stress_it`) and random generators: the model replaces each random input with a universally quantified parameter.
- The non-string scenario never calls `filter`, so it states only the intent. The model's version runs the filter and proves that outcome.
- Visiting order: when no `fields` are configured, the model leaves the order of top-level fields unspecified. Each field is rewritten independently, so the result does not depend on it.
