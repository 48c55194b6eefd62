# Custom commands plugin — a verified model

The plugin lets chat administrators teach a bot keyword → response pairs at
run time. It keeps one process-wide table `custom_commands` (trigger →
response), loads it from a JSON file when the plugin starts, and rewrites the
file after every change. Four chat commands work on the table:

- **Add** `<prefix>问：<trigger>答：<response>`: admin-only upsert. Both parts are
  stripped, and an empty part is a format error.
- **Delete** `<prefix>删：<trigger>`: admin-only removal. It saves only when something was removed.
- **List** `<prefix>列表`: anyone may list. The reply is one text message: a header,
  then one bullet line per trigger in table order, with the whole text stripped.
- **Handle-dynamic** `<prefix><anything>`: looks the trigger up. A response whose
  lower-cased form ends in `.png`, `.jpg`, `.jpeg` or `.gif` is an image file
  under `data/images`. Any other response is sent as text. An unknown trigger
  is not consumed, so other handlers may still take the message.

Each command returns the triple `(success, reason, consumed)` to the host and
sends at most one reply.

The model follows `plugin.py` as written:
- An empty admin list lets everyone add and delete.
- `.webp` is not an image extension.
- The image directory is fixed at `data/images`.
- List sends a single text message.
- No "stop thinking" signal exists in the code, so none is modelled.

Layout (one module per file):

| file | module | what it holds |
|---|---|---|
| `wrappers.dfy` | `Wrappers` | `Option` |
| `strings.dfy` | `Strings` | `str.strip()` with Python's whitespace set, ASCII `lower()`, prefix/suffix tests |
| `table.dfy` | `OrderedTable` | the dict as an insertion-ordered table: upsert, delete, save items, load from pairs |
| `patterns.dfy` | `Patterns` | the groups the four command patterns capture, the Add split |
| `images.dfy` | `ImageRefs` | image classification and the image path |
| `listing.dfy` | `Listing` | the List reply text |
| `commands.dfy` | `Commands` | the outcome and reply types, the admin gate, the `CommandStore` class with the four commands, and the start-up load |
| `sessions.dfy` | `Sessions` | commands used one after another |

`CommandStore` holds the table in the field `commands`. Add and Delete
reassign that field. The ghost field `saved` is the list of snapshots handed to
`_save_commands`, oldest first. It records when a save happens and what it
writes, not how the file is written.

## Model

| member | source | states |
|---|---|---|
| `Strings.IsSpace` | plugin.py:51-52 | the characters `str.strip()` removes: the Unicode whitespace set Python's `str.isspace` uses |
| `Strings.Leading` | plugin.py:51-52 | counts the leading whitespace: everything before the count is whitespace, and the character at the count is not |
| `Strings.Trailing` | plugin.py:51-52 | counts the trailing whitespace the same way from the end |
| `Strings.TrimStart` | plugin.py:51-52 | the result is a suffix of the input; everything dropped is whitespace; the result is empty or starts with a non-whitespace character |
| `Strings.TrimEnd` | plugin.py:51-52 | the result is a prefix of the input; everything dropped is whitespace; the result is empty or ends with a non-whitespace character |
| `Strings.Strip` | plugin.py:51-54 | the stripped text is empty exactly when the input is all whitespace (the emptiness test of Add); otherwise it starts and ends with a visible character; it is a prefix of the input with its leading whitespace removed, and only whitespace follows it there |
| `Strings.StripIdempotent` | plugin.py:119 | stripping an already stripped trigger changes nothing, so a trigger stored by Add is found again by Handle-dynamic |
| `Strings.StripVisibleEnds` | plugin.py:51-52 | a string that starts and ends with a visible character is unchanged by `strip()` |
| `Strings.StripFinalNewline` | plugin.py:105-107 | stripping removes the final newline after a visible character and nothing else |
| `Strings.Lower` | plugin.py:123 | lower-casing keeps the length and folds each character on its own |
| `OrderedTable.Put` | plugin.py:58 | after `d[k] = v` the key holds the new value; every other key and value is unchanged; a new key goes last and an existing key keeps its place; the table stays well formed |
| `OrderedTable.Without` | plugin.py:80 | the remaining keys are exactly the old keys other than the removed one |
| `OrderedTable.WithoutAt` | plugin.py:80 | in a list without repeats, removing the key at position `i` leaves the keys before it and the keys after it, in their order |
| `OrderedTable.WithoutDistinct` | plugin.py:80 | removing a key keeps the key list free of repeats |
| `OrderedTable.Remove` | plugin.py:79-80 | after `del d[k]` the key is gone, every other entry is unchanged, and the key list is the old one with `k` taken out; an absent key leaves the table as it was |
| `OrderedTable.RemoveKeepsOrder` | plugin.py:80 | deleting a present trigger closes the gap at its position: the keys before it and after it keep their order, so List shows the others as before |
| `OrderedTable.PutTwice` | plugin.py:58 | upserting one trigger twice equals upserting it once with the later response |
| `OrderedTable.RemoveIdempotent` | plugin.py:79-86 | deleting twice is the same as deleting once |
| `OrderedTable.PutThenRemove` | plugin.py:58-80 | deleting a trigger just added leaves the table as deleting alone would |
| `OrderedTable.ItemsOf` | plugin.py:29 | the saved items are the keys in table order, each paired with its value |
| `OrderedTable.FromPairs` | plugin.py:187 | a table built from the loaded pairs is well formed; it holds every loaded key and no other key; the final pair's value is kept |
| `OrderedTable.FromPairsLastWins` | plugin.py:187 | for every key, the value kept is the one in the last pair naming that key |
| `OrderedTable.FromPairsFirstPlace` | plugin.py:187 | keys are ordered by their first occurrence: when key `a` comes before key `b` in the table, every pair naming `b` has a pair naming `a` before it |
| `OrderedTable.ItemsRoundTrip` | plugin.py:184-188 | rebuilding from the items of distinct keys gives those keys in order, each with its value |
| `OrderedTable.SaveLoadRoundTrip` | plugin.py:24-31 | loading what was saved gives back the same table, order included |
| `Patterns.LineBody` | plugin.py:68 | a trailing `(.+)$` captures the rest of the message minus one final newline, when that is non-empty and has no newline; otherwise it captures nothing |
| `Patterns.LineBodyComplete` | plugin.py:68 | any non-empty, single-line rest, with or without one final newline, is captured |
| `Patterns.MatchTail` | plugin.py:68 | `^<prefix><marker>(.+)$`, the shape of the Delete pattern and of the Add pattern before its split, captures a non-empty, single-line group; prefix, marker and group reassemble the message up to one trailing newline |
| `Patterns.MatchTailComplete` | plugin.py:68 | every message of that shape matches, and the group is the one written |
| `Patterns.FindSplit` | plugin.py:38 | finds the first place after the start where `答：` begins with at least one character after it, or reports that there is none |
| `Patterns.SplitAnswer` | plugin.py:38 | the lazy trigger group ends at the first such `答：`; both groups are non-empty and reassemble the line; no split means no `答：` can separate two non-empty parts |
| `Patterns.SplitAnswerRoundTrip` | plugin.py:38 | a trigger holding no `答：` of its own, followed by `答：` and a response, splits back into that trigger and that response |
| `Patterns.MatchAdd` | plugin.py:38 | a matched Add command captures a non-empty, single-line trigger and response, and prefix, `问：`, trigger, `答：` and response reassemble the message up to one trailing newline |
| `Patterns.AddFormatRoundTrip` | plugin.py:38 | matching a written-out Add command gives back its trigger and response, when the trigger holds no `答：` of its own |
| `Patterns.SplitAtFirstMarker` | plugin.py:38 | with two markers the trigger ends at the first: `.问：a答：b答：c` gives `a` and `b答：c` |
| `Patterns.MatchDelete` | plugin.py:68 | a matched Delete command captures a non-empty, single-line trigger, and the prefix, `删：` and the trigger reassemble the message up to one trailing newline |
| `Patterns.MatchDeleteComplete` | plugin.py:68 | every `<prefix>删：<trigger>` with a non-empty, single-line trigger, with or without one final newline, matches and captures that trigger |
| `Patterns.MatchDynamic` | plugin.py:115 | the catch-all pattern captures a non-empty, single-line trigger, and the prefix and the trigger reassemble the message up to one trailing newline |
| `Patterns.MatchDynamicComplete` | plugin.py:115 | every `<prefix><trigger>` with a non-empty, single-line trigger, with or without one final newline, matches and captures that trigger |
| `Patterns.MatchList` | plugin.py:92 | a List command also matches the catch-all pattern, with `列表` as its trigger, so the host's routing decides which handler runs |
| `ImageRefs.IsImage` | plugin.py:123 | a value is an image when its lower-cased form ends in `.png`, `.jpg`, `.jpeg` or `.gif` |
| `ImageRefs.ImagePath` | plugin.py:126-127 | a relative value is resolved under `data/images/`; an absolute value stands alone; the path ends with the value |
| `ImageRefs.ImageTestIgnoresCase` | plugin.py:123 | values that differ only in letter case are classified alike |
| `ImageRefs.LastLetterRulesOut` | plugin.py:123 | a value whose last letter is not `g` or `f`, in either case, is never an image |
| `ImageRefs.TextExtensionIsNotImage` | plugin.py:123 | any name followed by `.txt` is text |
| `ImageRefs.UpperCaseExtension` | plugin.py:123 | any name followed by `.PNG` is an image |
| `ImageRefs.WebpIsText` | plugin.py:123 | any name followed by `.webp` is text |
| `Listing.Line` | plugin.py:105 | one trigger's line: the bullet, the command prefix, the trigger and a newline |
| `Listing.ListLines` | plugin.py:104-105 | the lines of the triggers, one per trigger, in the order given |
| `Listing.ListingStep` | plugin.py:103-105 | each pass of the loop appends the next trigger's line to the header and the lines so far |
| `Listing.ListLinesConcat` | plugin.py:104-105 | the lines for two runs of triggers are the first run's lines followed by the second's |
| `Listing.ListLinesInOrder` | plugin.py:104-105 | each trigger's line sits after the lines of the triggers before it and before those after it |
| `Listing.StrippedListing` | plugin.py:103-107 | when the last trigger ends in a visible character, the stripped reply is the header and lines without the final newline |
| `Commands.Permitted` | plugin.py:47 | the admin gate of Add, repeated by Delete: a caller passes when the admin list is empty or names them |
| `Commands.CommandStore.Load` | plugin.py:183-195 | a missing file gives an empty table that is saved once; an unreadable file gives an empty table with no save; a parsed file gives the table built from its pairs |
| `Commands.CommandStore.Save` | plugin.py:24-31 | appends the current table to the saved snapshots and changes nothing else |
| `Commands.CommandStore.Add` | plugin.py:40-62 | refused caller: `(false, "无权限", true)` with table and saves unchanged; empty stripped part: `(false, "格式错误", true)` with table and saves unchanged; otherwise the table is upserted with the stripped parts, saved once, and the result is `(true, "添加成功", true)` |
| `Commands.CommandStore.Delete` | plugin.py:70-86 | refused caller: `(false, "无权限", true)` with nothing changed; present trigger: removed, saved, `(true, "删除成功", true)`; absent trigger: nothing changed and nothing saved, `(false, "命令未找到", true)` |
| `Commands.CommandStore.List` | plugin.py:94-108 | empty table: the fixed empty text with `(true, "列表为空", true)`; otherwise the stripped header and one bullet line per trigger in table order, with `(true, "列表已发送", true)`; never changes the table |
| `Commands.CommandStore.HandleDynamic` | plugin.py:117-143 | unknown trigger: `(false, "未找到自定义命令", false)` and no reply, the only unconsumed outcome; text value: sent verbatim; image value: missing file, failed send or sent image, each with its triple; never changes the table |
| `Sessions.AddTwice` | plugin.py:58-59 | two Adds of one trigger leave one entry holding the later response, after two saves |
| `Sessions.DeleteTwice` | plugin.py:79-86 | a repeated Delete answers `(false, "命令未找到", true)`; the table is as after one Delete, with at most one save |
| `Sessions.AddThenTrigger` | plugin.py:51-62 | after an admin adds a text response, the trigger answers with the stripped response |
| `Sessions.SingleTriggerListing` | plugin.py:103-107 | a one-trigger table lists as the header, a bullet, the prefix and the trigger |
| `Sessions.AdminSession` | plugin.py:44-108 | from a fresh start with one admin: the admin's Add returns `(true, "添加成功", true)`, another user's Add returns `(false, "无权限", true)`, and the listing shows the one trigger |

## Left out

- JSON file I/O (`open`, `json.dump`, `json.load`): a save is a ghost snapshot, and a load is one of three outcomes: missing file, unreadable file, or the object's key/value pairs in file order. Whether a write succeeded is not modelled, because the code only logs a failure.
- Commands.CommandStore.Load: models the first start in a process, when the module-level table is still empty; a later start in the same process with a missing file would save the table left over from before. It also does not model a JSON file whose top level is not an object or whose values are not strings. The code would then hold a non-dict table, which the other commands do not expect.
- Image bytes, `base64.b64encode` and `send_image`: the files are an input (`ImageFiles`). It lists the paths that exist and the paths whose read and send succeed. A successful reply records the image path.
- ImageRefs.ImagePath: no path normalisation (`.` segments, repeated or trailing slashes), because pathlib's normalisation refers to the same file anyway.
- Strings.Lower: folds ASCII letters only. The only non-ASCII characters that `str.lower()` maps to an ASCII letter are U+0130 (to `i` plus a combining dot) and U+212A (to `k`). Neither can complete `.png`, `.jpg`, `.jpeg` or `.gif` at the end of a value, so the image test is unaffected.
- Message delivery (`send_text`), `await` and the logger: each command returns its reply as a value.
- The host's routing between the four patterns: its priority order is the host's. The patterns are modelled as applied with `re.match`/`re.search` semantics, and `re.escape` makes the prefix literal.
- The mutation of class-level patterns in `get_plugin_components`, `get_config`, `config_schema` and `register_plugin`: these are host framework glue. The prefix and the admin list are parameters.
- `matched_groups.get(name, "")`: the default is never used, because a matched pattern always has its groups.
- The admin list and the user id are compared as strings. A configured list of numbers compared with a string id is not modelled.
- Concurrency: the table is shared by all handlers, and a handler suspends at each `await`, so handlers may interleave. This does not change their effect on the table: no handler awaits between reading the table and changing it (plugin.py:47-59, 74-81, 98-105, 119-122), and `_save_commands` is synchronous. Each command therefore changes the table and saves it in one step, as the model has it. Only the order in which replies are sent can interleave, and replies are not modelled as sent messages.
