# bolt.new chat history store and UI-library prompt context, in Dafny

This project models two parts of bolt.new, a browser-based AI code-generation assistant.

**The chat-history store** (`app/lib/persistence/db.ts`). This is an IndexedDB database with one object store, `chats`. Records are keyed by `id`, and a unique index sits on `urlId`. The model treats the store as a finite map from key strings to `ChatHistoryItem` records `{id, messages, urlId?, description?, timestamp}`. Messages are opaque values of a type parameter. The map is the field `chats` of the class `ChatDatabase`, and its methods change it in place:

- `SetMessages` is `store.put` of the whole record. It fails, leaving the table unchanged, when a *different* record already holds the same present `urlId`. That is IndexedDB's constraint error on a unique index.
- `DeleteById` is `store.delete`.

The schema is the class invariant `Valid()`:

- every record sits under its own `id` (the key path);
- no two records share a present `urlId` (the unique index).

The constructor is the upgrade handler's empty store. The read operations are functions over the map:

- `GetMessagesById`, `GetMessagesByUrlId`, and `GetMessages` (primary key first, then `urlId`);
- `GetAll`;
- `GetNextId`, the `reduce`/`Math.max` fold over `getAllKeys()` followed by `String(+highest + 1)`.

JavaScript's unary `+` is modelled on the keys that matter here: digit strings become their value, `"Infinity"` becomes infinity, and strings that cannot start a numeric literal (an ASCII letter other than `I` first, as in `"NaN"`) become NaN. Every other string (signed, padded, fractional, exponent or hexadecimal) is left unconverted, and `GetNextId` then returns nothing. `Math.max` propagates NaN and infinity as JavaScript does. `getUrlIds` (a cursor that pushes each record's `urlId`) and `getUrlId` (the `candidate`, `candidate-2`, `candidate-3`, … probing loop) are read-only methods with loops. IndexedDB lists string keys in ascending lexicographic order, so `getAll`, `getAllKeys` and the cursor visit records in that order (`KeyOrder.SortedKeys`).

**The UI-library prompt context** (`app/lib/.server/generateUICode.ts`):

- `selectUILibrary` / `isUILibrary` clamp an optional value to nextui, flowbite or shadcn, with shadcn as the default.
- `generateLibraryContext` appends a header. It then appends one `- name: description` line per component, plus an `  Example:` block with the first example's code when the component has one.
- Two wrappers add fixed prefixes and trailers.

The parsed component dumps are inputs. `generateLibraryContext` and `generateUILibraryContext` are methods with loops, proved equal to recursive specification functions (`LibraryContext`, `LibraryContexts`); `generateUILibraryContextForComponent` is straight-line code around a call of the first. The properties of the output are lemmas about those functions.

Behaviours of the code worth knowing:

- `getAll` returns records in ascending key order, IndexedDB's order for string keys.
- `getUrlId` reads the `urlId` list once, before probing, and probes against that snapshot.
- `getNextId` returns a fresh id whenever every key is a decimal string whose value is below 2^53. It returns an id already in use in three cases, and the next `setMessages` with that id overwrites the existing chat:
  - a key is `"Infinity"` (the result is `"Infinity"`);
  - a key reads as NaN while a chat is stored under `"NaN"` (the result is `"NaN"`);
  - the largest key is `"9007199254740992"` (2^53): in double arithmetic `+highest + 1` rounds back to 2^53, so the result is that same key. The model's numbers are unbounded, so it does not capture this case.

## Model

| member | source | states |
|---|---|---|
| `ChatDb.KeyPathHolds` | app/lib/persistence/db.ts:20 | the key path: every record is stored under its own `id` |
| `ChatDb.UrlIdsUnique` | app/lib/persistence/db.ts:22 | the unique `urlId` index: no two keys hold the same present urlId |
| `ChatDb.WellFormed` | app/lib/persistence/db.ts:19-23 | the schema of the `chats` store: key path and unique urlId index together |
| `ChatDb.ChatDatabase.Valid` | app/lib/persistence/db.ts:19-23 | the database's table satisfies the schema of the `chats` store |
| `ChatDb.ChatDatabase.constructor` | app/lib/persistence/db.ts:16-23 | a fresh database has the schema invariant (key path `id`, unique `urlId`) and an empty `chats` table |
| `ChatDb.ChatDatabase.SetMessages` | app/lib/persistence/db.ts:64-86 | the put succeeds iff no other record holds the same present urlId; on success the record under `id` is exactly `{id, messages, urlId, description, timestamp}`, replacing any earlier one; on failure the table is unchanged; every other key keeps its record; the schema invariant is preserved |
| `ChatDb.ChatDatabase.DeleteById` | app/lib/persistence/db.ts:143-152 | the table afterwards is the old one without key `id`; deleting an absent key changes nothing; other records are untouched; the invariant is preserved |
| `ChatDb.GetMessagesById` | app/lib/persistence/db.ts:125-134 | returns a record iff `id` is a key, and then the record stored under it |
| `ChatDb.GetMessagesByUrlId` | app/lib/persistence/db.ts:106-116 | returns nothing iff no record holds the urlId; otherwise returns the (unique) record that holds it |
| `ChatDb.GetMessages` | app/lib/persistence/db.ts:95-97 | a key hit returns that record; otherwise the result is the urlId lookup |
| `ChatDb.GetMessagesResolves` | app/lib/persistence/db.ts:95-134 | `getMessages(x)` yields `rec` iff `rec` is keyed `x`, or no key is `x` and `rec` holds urlId `x` (both directions) |
| `ChatDb.RecordReachableByBothIds` | app/lib/persistence/db.ts:95-97 | every stored record is found by its id, and by its urlId whenever no record is keyed by that urlId |
| `ChatDb.UrlIdShadowedByKey` | app/lib/persistence/db.ts:96 | when some record's urlId equals another record's key, `getMessages` of it returns the keyed record, not the urlId holder |
| `ChatDb.GetAll` | app/lib/persistence/db.ts:43-52 | one record per key (same count as the table), each the record stored under its id, no id listed twice |
| `ChatDb.GetAllCoversTable` | app/lib/persistence/db.ts:43-52 | every key of the table is the id of some record `getAll` lists |
| `ChatDb.GetAllAscending` | app/lib/persistence/db.ts:47 | `getAll` lists records in ascending key order |
| `ChatDb.UrlIdList` | app/lib/persistence/db.ts:204-227 | the cursor's list has one entry (possibly absent) per record, entry i being the urlId of the i-th record in key order |
| `ChatDb.UrlIdListCoversTable` | app/lib/persistence/db.ts:204-227 | a urlId is present in the list iff some record holds it |
| `ChatDb.ChatDatabase.GetUrlIds` | app/lib/persistence/db.ts:204-227 | the cursor loop returns exactly the urlId list of the current table, without changing it |
| `ChatDb.ChatDatabase.GetUrlId` | app/lib/persistence/db.ts:182-196 | the result is held by no record, and it is the candidate when the candidate is unused, otherwise `candidate-i` for the least i >= 2 that is unused |
| `ChatDb.IsAllocatedUrlId` | app/lib/persistence/db.ts:185-194 | the allocation rule: the candidate if no record holds it, otherwise `candidate-i` for the least i >= 2 that no record holds |
| `ChatDb.ProbeSuffixes` | app/lib/persistence/db.ts:188-192 | the probing loop terminates with i >= 2, `candidate-i` absent from the list, and every `candidate-j` for 2 <= j < i present |
| `ChatDb.ProbeBelowBound` | app/lib/persistence/db.ts:190-192 | any probe found in the list has its suffix below 10^(longest entry length), the bound that makes the probing loop terminate |
| `ChatDb.ProbingAllocates` | app/lib/persistence/db.ts:183-195 | the first probe missing from the urlId list is unused in the table and satisfies the allocation rule |
| `ChatDb.UrlIdAllocationDeterministic` | app/lib/persistence/db.ts:182-196 | at most one value satisfies the allocation rule, so repeated calls on an unchanged table return the same urlId |
| `ChatDb.UrlIdAllocationExample` | app/lib/persistence/db.ts:182-196 | with urlIds "foo" and "foo-2" in use, allocating "foo" gives "foo-3" |
| `ChatDb.MaxKey` | app/lib/persistence/db.ts:167 | the `reduce` of `Math.max(+acc, +key)` over the keys, left to right |
| `ChatDb.GetNextId` | app/lib/persistence/db.ts:160-173 | `String(+highest + 1)` for the fold over the keys in key order starting from 0; nothing when a key converts to a value the model does not compute |
| `ChatDb.MaxKeyOfDecimals` | app/lib/persistence/db.ts:167 | folding `Math.max` over decimal keys gives a number at least the start and every key value, and equal to the start or to one of the key values |
| `ChatDb.MaxKeyFromNaN` | app/lib/persistence/db.ts:167 | once the running maximum is NaN it stays NaN to the end of the fold |
| `ChatDb.MaxKeyOfNotNumeric` | app/lib/persistence/db.ts:167 | one key starting with an ASCII letter other than `I` (JavaScript reads it as NaN) makes the fold NaN |
| `ChatDb.MaxKeyReachesInfinity` | app/lib/persistence/db.ts:167 | over decimal keys and "Infinity", the fold is infinity as soon as one key (or the start) is infinity |
| `ChatDb.HighestKey` | app/lib/persistence/db.ts:164-167 | over decimal keys the fold from 0 is the largest key value, or 0 for an empty table |
| `ChatDb.GetNextIdIsMaxPlusOne` | app/lib/persistence/db.ts:160-173 | with decimal keys, `getNextId` is the decimal string of (largest key value, or 0) + 1 |
| `ChatDb.GetNextIdFresh` | app/lib/persistence/db.ts:160-173 | with decimal keys, the id `getNextId` returns is not an existing key |
| `ChatDb.GetNextIdOfEmpty` | app/lib/persistence/db.ts:166-168 | on an empty table `getNextId` is "1" |
| `ChatDb.GetNextIdExample` | app/lib/persistence/db.ts:166-168 | with keys "1", "2", "5", `getNextId` is "6" |
| `ChatDb.GetNextIdNaN` | app/lib/persistence/db.ts:167-168 | a key starting with an ASCII letter other than `I` (JavaScript reads it as NaN) makes `getNextId` return "NaN", which is an existing key once a record is stored under "NaN" |
| `ChatDb.GetNextIdInfinity` | app/lib/persistence/db.ts:167-168 | with decimal keys and a key "Infinity", `getNextId` returns "Infinity", an existing key |
| `ChatDb.NewConversation` | app/lib/persistence/db.ts:64-196 | on a fresh database, a conversation stored under the ids `getNextId` and `getUrlId` allocate is the only record and `getMessages` finds it by its urlId with exactly the stored fields |
| `Decimal.NatToString` | app/lib/persistence/db.ts:168 | `String(n)` for a natural `n` below 10^21 is a non-empty string of decimal digits (numbers are unbounded naturals here) |
| `Decimal.DigitsValueOfNatToString` | app/lib/persistence/db.ts:167-168 | reading `String(n)` back as a decimal number gives `n` |
| `Decimal.NatToStringLength` | app/lib/persistence/db.ts:190 | a number of at least 10^k has more than k decimal digits |
| `Decimal.NotNumeric` | app/lib/persistence/db.ts:167 | the strings JavaScript surely reads as NaN: first character an ASCII letter other than `I` |
| `Decimal.ToNumber` | app/lib/persistence/db.ts:167 | unary `+` gives a finite value exactly for digit strings, that value read exactly, without double rounding (0 for the empty string); infinity exactly for "Infinity" and "+Infinity"; NaN exactly for strings starting with an ASCII letter other than `I`, which cannot start a numeric literal; every other string is left unconverted |
| `Decimal.JsMax` | app/lib/persistence/db.ts:167 | `Math.max` is NaN iff an argument is NaN; otherwise infinity iff an argument is infinity and both are known; on two finite values, the larger one |
| `Decimal.SuccessorString` | app/lib/persistence/db.ts:168 | `String(x + 1)` is "NaN" for NaN, "Infinity" for infinity, the string whose number is x + 1 for finite x, and nothing exactly when x is not computed |
| `KeyOrder.SortedKeys` | app/lib/persistence/db.ts:47 | the listing of a key set has one entry per key, exactly the keys of the set, none repeated |
| `KeyOrder.SortedKeysAscending` | app/lib/persistence/db.ts:47 | that listing is in ascending lexicographic order |
| `Wrappers.Option.OrElse` | app/lib/persistence/db.ts:96 | `a \|\| b` on an optional record: `a` when present, otherwise `b` |
| `UiContext.FromName` | app/lib/.server/generateUICode.ts:23-24 | a string maps to the library of that name, and to none when no library has it |
| `UiContext.IsUILibrary` | app/lib/.server/generateUICode.ts:63-65 | `libraries.includes(lib)`: a present value that is one of the three names |
| `UiContext.SelectUILibrary` | app/lib/.server/generateUICode.ts:63-69 | the given value when it names one of nextui, flowbite, shadcn; shadcn otherwise, absent included; always one of the three |
| `UiContext.SelectUILibraryIdempotent` | app/lib/.server/generateUICode.ts:67-69 | selecting the name of the selected library gives the same library |
| `UiContext.LibraryContext` | app/lib/.server/generateUICode.ts:50-61 | the value of `generateLibraryContext`: the upper-cased header, then each component's entry in dump order |
| `UiContext.LibraryContextHeader` | app/lib/.server/generateUICode.ts:51 | the library context starts with the upper-cased library name followed by " Components:" and a newline |
| `UiContext.ComponentEntryShape` | app/lib/.server/generateUICode.ts:53-57 | a component's entry begins with `- name: description` and a newline, and continues (with the first example's block) iff the component has an example |
| `UiContext.ComponentsContextAppend` | app/lib/.server/generateUICode.ts:52-58 | the entries of two dumps in succession are the two entry texts in succession |
| `UiContext.EntryInDumpOrder` | app/lib/.server/generateUICode.ts:52-58 | the i-th component contributes exactly its entry, after the entries of all earlier components and before those of all later ones |
| `UiContext.ContextShowsOnlyFirstExample` | app/lib/.server/generateUICode.ts:55-57 | dumps that agree on names, descriptions, whether there is an example, and the first example's code give the same context |
| `UiContext.GenerateLibraryContext` | app/lib/.server/generateUICode.ts:50-61 | the loop builds exactly the header followed by each component's entry in dump order |
| `UiContext.GenerateUILibraryContextForComponent` | app/lib/.server/generateUICode.ts:71-84 | the result is the fixed prefix naming the library, then its library context, then the fixed trailing instruction |
| `UiContext.LibraryContextsInOrder` | app/lib/.server/generateUICode.ts:23 | the contexts of all libraries come in the order nextui, flowbite, shadcn |
| `UiContext.GenerateUILibraryContext` | app/lib/.server/generateUICode.ts:91-103 | the result is the fixed header, then the nextui, flowbite and shadcn contexts in that order, then the fixed trailer |

## Left out

- IndexedDB and Promise plumbing: the `onsuccess`/`onerror` callbacks, `openDatabase` resolving `undefined` when the engine cannot open, and the logger. Success and failure are return values. The only failure modelled is the unique-index constraint error of `put`; engine and transaction aborts are not.
- `new Date().toISOString()`: the timestamp is a parameter of `SetMessages`, because it reads the wall clock.
- Cross-tab and concurrent allocation in `getNextId` and `getUrlId`: the model has a single sequential writer.
- `ToNumber`, `GetNextId`: JavaScript number conversion is computed only for digit strings, "Infinity" and strings starting with an ASCII letter other than `I`. Take a key with a sign, surrounding white space, a decimal point, an exponent or a hex prefix (such as "-1", " 7", "1.5", "1e3", "0x10"). JavaScript returns a number string for it ("1" for "-1", "2.5" for "1.5"). The model makes `GetNextId` return nothing, unless another key starts with such a letter, in which case the result is "NaN", as in JavaScript. This is because numbers other than naturals, and their string form, are not modelled.
- `ToNumber`, `NatToString`, `GetNextId`: numbers are unbounded naturals, not doubles. A digit string is read exactly, and `String(n)` is always plain decimal digits. So the model does not capture rounding above 2^53 (key "9007199254740992" makes `getNextId` return that same key), `String` switching to exponent notation ("1e+21") from 10^21, or very long digit strings overflowing to infinity.
- Key order compares characters as Unicode scalar values, while IndexedDB compares UTF-16 code units. The two differ only for characters beyond U+FFFF.
- The `ChatHistoryItem` type and the `Message` type come from files that are not part of this model (`useChatHistory`, the `ai` package). Records carry exactly the fields `setMessages` writes, and messages are opaque.
- The Zod schema parse and the three JSON dump imports (`getLibraryDump`): the parsed dumps are inputs, a sequence per library, because the data is not available and Zod is a foreign library.
- `toUpperCase` is written out for the three library names only, which are the only values it is applied to.
- `isUILibrary` accepts any JavaScript value. The model takes an optional string; values of other types are never one of the three names.
- The chat-session synchronizer (`useChatHistory`, used by `app/components/chat/Chat.client.tsx`) is not part of this model, because its source is not available.
- `app/lib/.server/llm/stream-text.ts` (a wrapper over a hosted model API), `app/lib/.server/componentSelection.ts` and `app/utils/dump.ts` (placeholder simulation with logging and timers), the configuration contexts (`localStorage` and JSON I/O), the React components and `app/entry.server.tsx` (HTTP streaming) are not modelled: they are I/O or UI glue.
