# XControls in Dafny

A model of `XControls.cs`, a set of lookup-table "vote aggregators" for a game
engine's component model. It has three independent classes:

- `BControl` collects boolean votes in four key-spaces: numeric, text, component and object keys.
  The text, component and object key-spaces are put in use lazily, on their first write.
  The control converts to `!avoidTrue` as soon as a consulted vote differs from the polarity `avoidTrue`.
  Otherwise it converts to `avoidTrue`.
  Every write through the numeric, text or component indexer raises `OnBoolAssigned`.
- `IControl` maps names to 32-bit integers and converts to their maximum or their minimum.
  Reading an absent name stores the mode's sentinel, `int.MinValue` or `int.MaxValue`, and returns it.
- `XControl<T>` maps four key-spaces to `(active, priority, payload)` triples.
  It converts to the payload of the active entry with the highest priority.
  Entries are scanned in the order object, component, numeric, text.
  A later entry takes over only with a strictly greater priority, so ties go to the entry met first.

Each .NET `Dictionary` is modelled as `Dictionaries.Dict`: a map together with its
keys in insertion order. The controls never remove entries, so that order is the
dictionary's enumeration order. C# `int` is the subset type `Primitives.Int32`.
Component and object keys are opaque types that only support equality.
Indexers become `Get…`/`Set…` members. The implicit conversions become the
constructors `FromBool` and the methods `ToBool`, `ToInt` and `ToPair`.
`default(T)` becomes the constructor parameter `defaultPayload`.
The `OnBoolAssigned` event becomes the ghost counter `assignedEvents`.

## Model

| member | source | states |
|---|---|---|
| `Dictionaries.Dict.Put` | XControls.cs:54-55 | `ContainsKey`-then-assign-or-`Add` maps the key to the value, keeps key order for a present key and appends an absent one, and keeps the dictionary consistent |
| `Dictionaries.Dict.Values` | XControls.cs:152-155 | the values in enumeration order, position by position |
| `Dictionaries.ValuesOf` | XControls.cs:152-155 | the values of a key sequence, one per key, in key order |
| `Dictionaries.Empty` | XControls.cs:23 | a new dictionary is consistent and has no keys |
| `Dictionaries.PutAbsentValues` | XControls.cs:224 | adding an absent key enumerates its value last and leaves the earlier values unchanged |
| `Dictionaries.PutPresentValues` | XControls.cs:232 | overwriting a present key changes only that key's value and keeps the enumeration order |
| `Dictionaries.PutSameIsIdentity` | XControls.cs:54 | storing the value a key already holds leaves the dictionary unchanged |
| `Dictionaries.PutIdempotent` | XControls.cs:54-55 | writing the same key and value twice is the same as writing it once |
| `BoolControls.AnyDiffers` | XControls.cs:152-155 | the early-return `foreach` finds a differing vote if and only if the dictionary holds one |
| `BoolControls.BControl.constructor` | XControls.cs:21-35 | a new control has polarity false, empty dictionaries, no lazy key-space in use, and converts to false |
| `BoolControls.BControl.FromBool` | XControls.cs:137-143 | converting `b` gives votes `{0 ↦ b}`, polarity `b`, no lazy key-space in use, and converts back to `b` |
| `BoolControls.BControl.GetInt` | XControls.cs:46-50 | a stored numeric vote is returned; only a stored key can read differently from `avoidTrue` |
| `BoolControls.BControl.GetString` | XControls.cs:62-66 | a stored text vote is returned once the key-space is in use; otherwise the read is `avoidTrue` |
| `BoolControls.BControl.GetComponent` | XControls.cs:88-92 | a stored component vote is returned once the key-space is in use; otherwise the read is `avoidTrue` |
| `BoolControls.BControl.GetObject` | XControls.cs:114-118 | a stored object vote is returned once the key-space is in use; otherwise the read is `avoidTrue` |
| `BoolControls.BControl.SetInt` | XControls.cs:52-57 | the key then reads as the value, other keys and other key-spaces are unchanged, and one event is raised |
| `BoolControls.BControl.SetString` | XControls.cs:68-83 | the first write replaces the dictionary by one holding only this key; the key then reads as the value, other keys are unchanged, and one event is raised |
| `BoolControls.BControl.SetComponent` | XControls.cs:94-109 | the first write replaces the dictionary by one holding only this key; the key then reads as the value, other keys are unchanged, and one event is raised |
| `BoolControls.BControl.SetObject` | XControls.cs:120-133 | the first write replaces the dictionary by one holding only this key; the key then reads as the value, no event is raised, and the conversion to bool is unaffected |
| `BoolControls.BControl.ToBool` | XControls.cs:150-174 | the result differs from `avoidTrue` if and only if some numeric vote, or some in-use text or component vote, differs from it; object votes are never consulted |
| `IntControls.Better` | XControls.cs:252-264 | one step keeps the running value or takes the vote; in Maximum mode the result bounds both from above, in Minimum mode from below, and the vote replaces the running value only when strictly beyond it |
| `IntControls.Sentinel` | XControls.cs:220-222 | the mode's sentinel is neutral for the reduction on either side |
| `IntControls.ExtremeIsExtreme` | XControls.cs:242-271 | the scan bounds every vote from above in Maximum mode and from below in Minimum mode, is one of the votes when there are any, and is the sentinel when there are none |
| `IntControls.SentinelIsNeutral` | XControls.cs:220-225 | appending the sentinel does not change the reduction |
| `IntControls.ExtremeOfDict` | XControls.cs:242-271 | the same bounds stated over the dictionary's keys and values |
| `IntControls.IControl.constructor` | XControls.cs:198-201 | a new control has the given mode, no votes, and converts to the mode's sentinel |
| `IntControls.IControl.Get` | XControls.cs:214-227 | a present key returns its vote and changes nothing; an absent key stores the sentinel, `int.MinValue` in Maximum mode and `int.MaxValue` in Minimum mode, and returns it; the conversion to int is unchanged either way |
| `IntControls.IControl.Set` | XControls.cs:229-234 | the key then holds the value and other keys keep theirs |
| `IntControls.IControl.ToInt` | XControls.cs:242-271 | the result is the largest vote in Maximum mode or the smallest in Minimum mode, and the sentinel when there are no votes |
| `IntControls.MaxScan` | XControls.cs:248-255 | the running maximum from `int.MinValue` over the values in enumeration order |
| `IntControls.MinScan` | XControls.cs:260-267 | the running minimum from `int.MaxValue` over the values in enumeration order |
| `PriorityControls.FoldAppend` | XControls.cs:305-360 | four consecutive loops sharing `res`, `max` and `val` make one scan of the concatenated entries |
| `PriorityControls.WinnerIsUnique` | XControls.cs:311-316 | at most one entry is the selected one |
| `PriorityControls.FoldSelectsWinner` | XControls.cs:299-363 | with no qualifying entry the scan ends at `(avoidTrue, int.MinValue, default)`; otherwise it ends at `!avoidTrue` with the payload and priority of the qualifying entry of greatest priority that comes first |
| `PriorityControls.TieGoesToFirst` | XControls.cs:311-316 | of two active entries that tie with each other and beat the running priority, from any state and for either polarity, the one met first is selected |
| `PriorityControls.Start` | XControls.cs:301-303 | the scan starts at `res = avoidTrue`, `max = int.MinValue` and `val = default(T)` |
| `PriorityControls.StartMovesOnlyOnQualifying` | XControls.cs:301-316 | from the start state an entry takes over exactly when its active flag differs from the polarity and its priority exceeds `int.MinValue` |
| `PriorityControls.Step` | XControls.cs:311-316 | an entry changes the state exactly when `active ^ avoidTrue` holds and its priority is strictly greater than `max`; it then sets `!avoidTrue`, its priority and its payload; `max` never decreases |
| `PriorityControls.WinnerStep` | XControls.cs:311-316 | after one more entry, that entry is the selected one if it took over, and the previously selected entry stays selected otherwise |
| `PriorityControls.ScanEntries` | XControls.cs:305-317 | one `foreach` over a dictionary of triples carries on the scan from the state it is given |
| `PriorityControls.XControl.constructor` | XControls.cs:283-290 | a new control has four empty dictionaries and polarity false |
| `PriorityControls.XControl.FromBool` | XControls.cs:292-297 | converting `b` gives no entries and polarity `b` |
| `PriorityControls.XControl.Absent` | XControls.cs:370 | the triple an absent key reads as carries the default payload and never qualifies |
| `PriorityControls.XControl.GetInt` | XControls.cs:367-371 | a stored triple is returned, an absent key reads as `(avoidTrue, int.MinValue, default)` |
| `PriorityControls.XControl.GetString` | XControls.cs:382-386 | a stored triple is returned, an absent key reads as `(avoidTrue, int.MinValue, default)` |
| `PriorityControls.XControl.GetObject` | XControls.cs:397-401 | a stored triple is returned, an absent key reads as `(avoidTrue, int.MinValue, default)` |
| `PriorityControls.XControl.GetComponent` | XControls.cs:412-416 | a stored triple is returned, an absent key reads as `(avoidTrue, int.MinValue, default)` |
| `PriorityControls.XControl.SetInt` | XControls.cs:373-377 | the key then reads as the triple; other keys and the other three dictionaries are unchanged |
| `PriorityControls.XControl.SetString` | XControls.cs:388-392 | the key then reads as the triple; other keys and the other three dictionaries are unchanged |
| `PriorityControls.XControl.SetObject` | XControls.cs:403-407 | the key then reads as the triple; other keys and the other three dictionaries are unchanged |
| `PriorityControls.XControl.SetComponent` | XControls.cs:418-422 | the key then reads as the triple; other keys and the other three dictionaries are unchanged |
| `PriorityControls.XControl.ToPair` | XControls.cs:299-363 | `(avoidTrue, default)` when no entry has `active != avoidTrue` and a priority above `int.MinValue`; otherwise `!avoidTrue` and the payload of the entry of greatest priority that comes first in the order object, component, numeric, text |

## Left out

- `ToString` and `ToLongString` only format text for display.
- `MHXDatum`, `MHXFlagColor` and `MHXDT` are passive records with no behaviour. They depend on types that are not part of this model.
- Serialisation attributes and the engine's `Component` type are not modelled. Components are opaque keys with plain equality, so the engine's overloaded "destroyed object" equality is not modelled.
- Null keys are not modelled. A .NET dictionary throws `ArgumentNullException` on them, and the model's key types have no null.
- The event's subscribers are not modelled. `OnBoolAssigned` is counted, and the callbacks themselves are not run.
- Out-of-range `IControlMode` values are not modelled. A cast can make one in C#, and it would store 0 on read and convert to -1. The model's mode has only `Minimum` and `Maximum`.
- The implicit conversion from `IControlMode` to `IControl` (XControls.cs:237-240) only calls the constructor, which is modelled.
- Dictionary enumeration order is taken to be insertion order. .NET keeps that order for dictionaries that never have entries removed, and none of the controls removes any.
