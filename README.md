# Brawl Stars map rotation selector, in Dafny

This project models `utils/brawl_maps.py`, the helper a chat-bot lobby uses
when it fills up. It announces which maps will be played. The helper has four
parts:

- a static table `MAP_ROTATION` from game mode to an emoji and a pool of maps;
- `_normalise_count`, which accepts a requested count or raises `ValueError`;
- `pick_unique_mode_maps`, which samples `count` distinct modes and picks one
  map from each, in the order sampled;
- `format_rotation_message`, which renders one line per pick,
  `"{emoji} **{mode}** — {map_name}"`, joined by line breaks.

Files:

- `wrappers.dfy`: `Option` and `Result` (a raised `ValueError` becomes `Err`).
- `text.dfy`: `Join` is Python's `sep.join`. `Split` and `Occurrences` are
  reference definitions, used only to state what the message contains.
- `brawl_maps.dfy`: module `BrawlMaps`, the model itself.

Modelling decisions:

- The table is the ordered sequence `list(MAP_ROTATION.items())`. It has the
  subset type `Rotation`, which says mode names are unique, as dictionary keys
  are. `Lookup` is `MAP_ROTATION.get(mode)`: it returns `None` for a mode that is
  not a key, where `MAP_ROTATION[mode]` raises `KeyError`. The only lookup in
  the source (tests/test_brawl_maps.py:23) uses keys that are present, which
  `PickAgreesWithTable` proves.
- A payload's `"emoji"` and `"maps"` keys are `Option`s. A missing key reads
  as `""` or as no maps, as the `payload.get` defaults do.
- The selector takes the table as a parameter (the source reads the module
  constant). `MapRotation()` is that constant, and the `MapRotation…` lemmas
  are about it.
- The random source is an oracle. `sample` holds the table positions of the
  items that `random.sample` returned, in draw order. `choices[i]` is the position that
  `random.choice` picked in the pool of the i-th sampled mode. `OracleFits`
  asks `count` distinct positions in range, and each choice inside its pool.
  It also asks for a choice for every sampled mode, including modes after
  the first one without maps, where the source never calls `choice`; those
  entries are never read. It asks this only when the count
  is accepted, because a rejected count draws nothing.
- `PickUniqueModeMaps` also returns `draws`, the calls it made to the random
  source, in order. This is how "a rejected count consumes no entropy" is
  stated.
- `Pick` (the selection, with `Collect` for its loop) and `RotationMessage`
  (the formatting) are specifications written as functions. The imperative
  methods keep the source's loops and are proved equal to them. The
  properties are lemmas about the functions. The loop of
  `pick_unique_mode_maps` is the method `CollectSampledModes`; the
  validation and the sample draw around it are `PickUniqueModeMaps`.

## Model

| member | source | states |
|---|---|---|
| `BrawlMaps.Lookup` | tests/test_brawl_maps.py:23 | the table lookup by mode finds a payload exactly when some entry has that mode, and then that entry is the mode with that payload |
| `BrawlMaps.MapRotation` | utils/brawl_maps.py:26-51 | the canonical table, with the source's six modes, emojis and map names in insertion order; it has unique mode keys, six modes, and a non-empty map pool for every mode |
| `BrawlMaps.NormaliseCount` | utils/brawl_maps.py:54-63 | the count is accepted exactly when 1 <= count <= available, and is then returned unchanged; otherwise the error is count-not-positive exactly when count <= 0, no-modes exactly when count > 0 and available <= 0, and exceeds-modes exactly when 0 < available < count |
| `BrawlMaps.LookupAt` | utils/brawl_maps.py:26-51 | in a table with unique mode keys, looking up the mode of any entry finds that entry's payload |
| `BrawlMaps.Collect` | utils/brawl_maps.py:93-102 | the loop over the sampled modes as a function: each mode in sample order adds the entry built from its name, emoji and chosen map, and the first mode without maps raises instead (lines 97-98); a success has one entry per sampled mode, and the only error it raises is the missing-maps one |
| `BrawlMaps.Pick` | utils/brawl_maps.py:87-102 | the selection as a function: validate the count against the number of modes, then collect the sampled modes; a rejected count is returned as that error whatever the random source holds, and a success has exactly `count` entries |
| `BrawlMaps.CollectResult` | utils/brawl_maps.py:93-102 | the loop over the sampled modes succeeds exactly when every sampled mode has maps; its i-th entry then has the i-th sampled mode, that mode's emoji and the chosen map of its pool; otherwise it fails with the first sampled mode that has no maps |
| `BrawlMaps.CollectStopsAtFirstEmpty` | utils/brawl_maps.py:97-98 | when every sampled mode before position i has maps and the one at i has none, the loop raises the missing-maps error naming the mode at i |
| `BrawlMaps.CollectMissingKeys` | utils/brawl_maps.py:95-100 | a payload with no `"maps"` key reads as an empty pool, so once reached it makes the loop raise the missing-maps error naming that mode; a payload with no `"emoji"` key gives its entry the empty emoji |
| `BrawlMaps.CollectAllFilled` | utils/brawl_maps.py:93-102 | when every sampled mode has maps, the loop returns the entries built from the sampled modes and choices, in order |
| `BrawlMaps.PickOkIff` | utils/brawl_maps.py:87-102 | the selection succeeds exactly when 1 <= count <= number of modes and every sampled mode has maps |
| `BrawlMaps.PickInSampleOrder` | utils/brawl_maps.py:94-100 | on success entry i is built from the i-th sampled mode: its name, its emoji, and the map at the i-th choice in its pool |
| `BrawlMaps.PickDistinctModes` | utils/brawl_maps.py:92-100 | on success no two entries share a mode |
| `BrawlMaps.PickAgreesWithTable` | utils/brawl_maps.py:94-100 | on success every entry's mode is a key of the table, its map is in that mode's pool, and its emoji is that mode's emoji |
| `BrawlMaps.MapRotationPickOkIff` | utils/brawl_maps.py:26-51 | with the canonical table the no-maps error cannot happen: the selection succeeds exactly for counts 1 to 6 |
| `BrawlMaps.MapRotationRejectsBadCounts` | tests/test_brawl_maps.py:52-57 | with the canonical table, count 0 fails as not positive and count 7 fails as exceeding the modes |
| `BrawlMaps.MapRotationRecordedTriple` | tests/test_brawl_maps.py:28-49 | sampling positions 3, 5, 0 and choosing maps 1, 2, 1 is a possible answer of the random source for three modes, and those answers give exactly the expected triple (Braquage, Prime, Razzia de gemmes with their maps and emojis), in that order |
| `BrawlMaps.CollectSampledModes` | utils/brawl_maps.py:93-102 | the loop's result is `Collect`; it draws one map for each sampled mode in order, each from that mode's pool; it draws for every mode on success, and on the missing-maps error it has drawn for exactly the modes before the first one without maps and for none after |
| `BrawlMaps.PickUniqueModeMaps` | utils/brawl_maps.py:66-102 | the result is the selection `Pick`; a rejected count makes no call to the random source; otherwise the first call samples `count` of all the modes, and each later call is a choice among the pool of the next sampled mode; on success there is one choice per entry; on the missing-maps error the choices cover exactly the sampled modes before the first one without maps |
| `BrawlMaps.Line` | utils/brawl_maps.py:110 | the line of one entry: emoji, a space, the mode in bold, a spaced em dash, the map name; it has a line break exactly when a field has one, and its length is the fields' lengths plus the eight characters of markup |
| `BrawlMaps.LinesSingleLine` | utils/brawl_maps.py:110 | an entry line contains a line break only when one of its fields does |
| `BrawlMaps.RotationMessage` | utils/brawl_maps.py:108-112 | the announcement as a function: one line per entry in order, joined by line breaks; it is the empty string exactly when the selection is empty |
| `BrawlMaps.RotationMessageLines` | utils/brawl_maps.py:108-112 | for a non-empty selection with single-line fields, splitting the message at line breaks gives back one line per entry, in selection order: there is no trailing line break |
| `BrawlMaps.RotationMessageBreaks` | utils/brawl_maps.py:108-112 | for single-line fields the message holds one line break fewer than there are entries, and none for an empty selection |
| `BrawlMaps.RotationMessagePair` | utils/brawl_maps.py:108-112 | a two-entry message is the first line, a line break, then the second line |
| `BrawlMaps.RotationMessageExample` | tests/test_brawl_maps.py:60-68 | the two-entry example is formatted as `<:A:1> **Mode A** — Carte 1`, a line break, `<:B:2> **Mode B** — Carte 2` |
| `BrawlMaps.FormatRotationMessage` | utils/brawl_maps.py:105-112 | the loop's result is the message `RotationMessage`, and it is empty exactly when the selection is |
| `Text.Join` | utils/brawl_maps.py:112 | `sep.join(parts)`: the parts in order with the separator between neighbours; empty for no parts, it starts with the first part, and with two or more parts it is at least as long as the first part, the separator and the last part together |
| `Text.SplitJoin` | utils/brawl_maps.py:112 | joining at least one separator-free part with a one-character separator, then splitting at that character, gives the parts back |
| `Text.JoinOccurrences` | utils/brawl_maps.py:112 | joining n separator-free parts introduces exactly n - 1 separators |

## Left out

- The internals of Python's `random` module (Mersenne Twister, and how
  `sample` and `choice` turn the state into indices). The random source is an
  oracle of answers. So the recorded triple of the seed-0 test is shown for
  the answers that give it, not derived from the seed.
- The seed-42 test's own draws, for the same reason. Its assertions (three
  distinct modes, and consistency with the table) are `Pick` (a
  success has exactly `count` entries), `PickDistinctModes` and
  `PickAgreesWithTable`, for every possible draw.
- Uniformity, independence and the other distribution claims: they are not
  statements about a single run.
- The fallback to the global `random` module when `rng` is `None`. It is
  hidden ambient state; the oracle stands for whichever source is used.
- The text of each `ValueError`: the messages are dropped. Each error is a
  constructor of `Error`, whose comment describes the condition that raises it.
- Keyword-only parameters and the default `count=3`: Dafny has no such
  callers, so `count` is always passed.
- Frozen-dataclass machinery (hashing, immutability enforcement): a
  `datatype` value is immutable and compared by value.
- The `Iterable` accepted by `format_rotation_message`: it is modelled as a
  finite sequence.
- How chat clients render the emoji tokens and the `**` bold markup.
