# QR generator record store and task list, modelled in Dafny

The repository holds two small Express services. This project models the
logic inside them with the HTTP layer removed.

* **QR generator** (`index.js`, POST `/generer`). The handler normalises the
  submitted URL (`https://` is prepended unless the URL already starts with
  `http://` or `https://`). It names the image `qr_<name>.png` and asks the QR
  encoder to write it. Only if that succeeds does it upsert the record in the
  flat file `BD.txt`: read the file (a missing file reads as `""`), split it on
  `"\n"`, drop blank lines and every line that starts with `name + " /"`,
  append `name / url / image`, and rewrite the file as the lines joined by
  `"\n"` plus a final `"\n"`. Module `QrGenerator` holds the class
  `Generator`, whose field `bd: Option<string>` is the file (`None` while it
  does not exist), and the functions and lemmas about the line list. Module
  `JsString` gives the JavaScript built-ins it uses (`startsWith`, `trim`,
  `split`, `join`, `filter`) their exact meaning over `seq<char>`.
* **Task list** (`app.js`). The module-level array `taches` and the counter
  `prochainId` become the fields of class `TaskApi.TaskList`. The POST, PUT
  and DELETE handlers become the methods `Add`, `Update` and `Delete`, which
  return a status code and an optional task instead of JSON. A request field
  is an `Option<string>`; JavaScript truthiness is "present and not `""`".
  A ghost field `issued` records every id ever handed out, so that "ids are
  never reused" can be stated.

The model follows the code, also where it departs from a conventional keyed
record store:

* The old record is found by a prefix test, `line.startsWith(name + " /")`,
  not by an exact comparison of the first field. So upserting site `A` also
  drops the record of a site named `A /B` (`PrefixKeyDropsOtherSite`).
* The filter callback tests `line.trim() !== ''`. The model states it as
  "not every character is whitespace", and the contract of `JsString.Trim`
  proves that this is the same test.
* There is no validation of an empty key or of a key containing the
  separator, and no parse error for malformed lines. None is modelled.
* The round trip (`LoadSerialize`) is stated for non-blank lines without
  `"\n"`. `LoadAfterUpsert` and `UpsertIdempotent` assume that the name and
  the URL contain no `"\n"`, because a form field with a newline is written
  as several lines:
  * with the newline in the URL, the first piece starts with `name + " /"`
    and the next upsert drops it; it also drops every other piece that is
    blank or itself starts with `name + " /"`, and keeps the remaining pieces
    as orphan lines. A URL with two newlines in a row writes a blank line
    into the file, which the next upsert drops;
  * with the newline in the name, the key prefix holds a newline and no
    stored piece does, so the key test never matches
    (`NewlineNameNeverMatches`); nothing is dropped, and every upsert of that
    site appends one more split-up copy of the record.

## Model

| member | source | states |
|---|---|---|
| QrGenerator.NormalizeUrl | index.js:52-54 | the stored URL starts with `http://` or `https://`; it is the input when the input already did, else `"https://" + input` |
| QrGenerator.RecordLineShape | index.js:61-88 | the new line starts with `name + " /"`, is never blank, and holds no newline when name and URL hold none |
| QrGenerator.KeptLines | index.js:81-84 | the filter keeps exactly the non-blank lines not starting with `name + " /"`, each as often as it occurs |
| QrGenerator.ImageName | index.js:61 | definition without a contract: `qr_` + name + `.png`; its use in the stored line is stated by `UpsertLines` |
| QrGenerator.RecordLine | index.js:88 | definition without a contract: `name / url / image`; its properties are proved by `RecordLineShape` |
| QrGenerator.Kept | index.js:81-84 | definition without a contract: the filter of the split lines; its result is characterised by `KeptLines` and `UpsertKeepsOthers` |
| QrGenerator.RetainedIsTrimTest | index.js:83 | the filter callback of the model is exactly the source's test: trimmed line not empty and no `name + " /"` prefix |
| QrGenerator.NewlineNameNeverMatches | index.js:81-83 | when the name holds a newline, no piece of the split file starts with the key prefix, so the old record is never dropped |
| QrGenerator.KeyPrefix | index.js:83 | definition without a contract: `name + " /"`; characterised by `RecordLineShape`, `UpsertUniqueKey` and `PrefixKeyDropsOtherSite` |
| QrGenerator.Retained | index.js:83 | definition without a contract: the filter callback; shown equal to the source's test by `RetainedIsTrimTest`, its effect stated by `KeptLines` |
| QrGenerator.StoreContent | index.js:75-78 | definition without a contract: a missing BD.txt reads as `""`; its consequence is stated by `UpsertIntoMissingStore` |
| QrGenerator.UpsertContent | index.js:75-94 | definition without a contract: read, split, filter, append, join and rewrite; characterised by `LoadAfterUpsert`, `UpsertIdempotent`, `UpsertIntoMissingStore` and tied to the state by `Generator.Upsert` |
| QrGenerator.UpsertLines | index.js:61-91 | the line list after the upsert is non-empty and its last line is exactly `name / url / qr_name.png` |
| QrGenerator.UpsertUniqueKey | index.js:81-91 | after the upsert exactly one line starts with `name + " /"`, and it is the last |
| QrGenerator.UpsertNoBlankLines | index.js:81-91 | after the upsert no line is empty or whitespace-only |
| QrGenerator.UpsertKeepsOthers | index.js:81-91 | before the new line stand the old non-blank lines not starting with the key prefix, in their old order, with their multiplicities, and nothing else |
| QrGenerator.Serialize | index.js:94 | definition without a contract: lines joined by `"\n"` plus a final `"\n"`; `LoadSerialize` proves it is read back exactly |
| QrGenerator.LoadSerialize | index.js:81-94 | splitting the written text on `"\n"` and dropping blank lines gives back the line list, for non-blank newline-free lines |
| QrGenerator.LoadAfterUpsert | index.js:75-94 | reading BD.txt back after an upsert gives exactly the upserted line list |
| QrGenerator.UpsertIdempotent | index.js:75-94 | upserting the same (name, url) twice writes the same content as upserting it once |
| QrGenerator.UpsertIntoMissingStore | index.js:75-94 | upserting into a missing BD.txt writes the single record line and a final newline |
| QrGenerator.PrefixKeyDropsOtherSite | index.js:83 | the key test is a prefix test: the record of any site whose name starts with `name + " /"` (site `A /B` for `A`) is dropped too |
| QrGenerator.Generator.Upsert | index.js:46-166 | when the encoder fails the outcome is an error and BD.txt is untouched; otherwise the outcome carries the normalised URL and image name and BD.txt holds the upserted content (a missing file read as empty) |
| JsString.Trim | index.js:83 | `trim()` is empty exactly when every character is whitespace, and otherwise neither starts nor ends with whitespace |
| JsString.StartsWith | index.js:52-83 | definition without a contract: `p` is a prefix of `s`; used by the scheme test (`NormalizeUrl`) and the key test (`UpsertUniqueKey`) |
| JsString.Join | index.js:94 | definition without a contract: pieces separated by `"\n"`; `JoinSplit` and `SplitJoinNewline` relate it to `Split` in both directions |
| JsString.Split | index.js:81 | `split("\n")` returns at least one piece and no piece contains `"\n"` |
| JsString.Filter | index.js:81-84 | every element `filter` returns passes the callback, and the result is no longer than the input |
| JsString.FilterSpec | index.js:81-84 | `filter` keeps exactly the passing elements, with their multiplicities, in their original order, and nothing that was not in the input |
| JsString.JoinSplit | index.js:81 | the pieces `split("\n")` returns are the pieces of the text: joining them with `"\n"` gives the text back |
| JsString.SplitJoinNewline | index.js:81-94 | text written as lines joined by `"\n"` plus `"\n"` splits back into those lines and one empty tail |
| TaskApi.DescriptionOrDefault | app.js:98 | a new task's description is the given one when truthy, else `"Aucune description"` |
| TaskApi.IndexOfId | app.js:166 | `findIndex` gives the first position holding the id, or -1 exactly when no task has it |
| TaskApi.FindIndex | app.js:131 | the linear search returns the position `IndexOfId` specifies |
| TaskApi.ApplyUpdate | app.js:148-150 | the update replaces exactly the truthy supplied fields and keeps the id |
| TaskApi.RemoveAt | app.js:176 | `splice(index, 1)` removes exactly that element and keeps the others in their order |
| TaskApi.RemoveFoundId | app.js:166-176 | with distinct ids, no task with the deleted id remains |
| TaskApi.RemoveKeepsInvariant | app.js:166-176 | removing a task keeps ids distinct and below the counter and every statut allowed |
| TaskApi.TaskList.constructor | app.js:29-45 | the list starts with tasks 1 and 2 and the counter at 3, and the invariant holds |
| TaskApi.TaskList.Add | app.js:79-109 | a falsy `nom` gives 400 and no change; otherwise one task with the old counter as id and statut `"en cours"` is appended, the counter goes up by one, the id was never issued before and is added to the issued ids (which stay unchanged on a 400), and the invariant is kept |
| TaskApi.TaskList.Update | app.js:123-157 | an unknown id gives 404 and no change, checked before the statut; a truthy statut outside the two allowed ones gives 400 and no change; otherwise only the truthy fields of the matched task change, in place, and counter and invariant are kept |
| TaskApi.TaskList.Delete | app.js:161-183 | an unknown id gives 404 and no change; otherwise exactly that task is removed and returned, the others keep their order, and the counter is unchanged, so ids are never reused |

## Left out

- Express wiring (body parsing, static files, `sendFile`, `listen`), console logging and the HTML success page with `encodeURIComponent`: framework glue and presentation.
- `QRCode.toFile`: a foreign library; it is the boolean parameter `qrWritten` of `Generator.Upsert` (written or failed).
- Failures of `readFileSync` and `writeFileSync` inside the same `try` block: file I/O is a field that is always readable and writable, so an I/O error cannot be expressed.
- Creating the `image` directory at start-up: file-system side effect with no bearing on the store.
- Concurrent requests and the lost-update race on BD.txt: the model handles one request at a time.
- The 500 answer of POST /taches: nothing in the modelled handler can throw.
- A missing or repeated `url` form field: the handler then calls `startsWith` on a non-string before its `try` block, the request fails with no image and no BD.txt write, and what the client then gets depends on the Express and Node versions (an unhandled rejection that may end the process, or a 500 from the framework's error handler); the model's `url` is always a string.
- A missing `nom_site` form field: JavaScript turns it into the text `undefined` in the key prefix, the record and the image name; the model's `name` is always a string.
- TaskApi.TaskList.Add: `prochainId` is a JavaScript double, whose increment stops changing the value at 2^53, after which two tasks would share an id; the model's counter is an unbounded integer, so fresh ids are promised without that bound.
- `parseInt` of the route parameter: the id is an `int`; an id that matches no task gives 404.
- GET / and GET /taches: they only return data as JSON and change nothing.
- QrGenerator.LoadSerialize: stated only for non-blank lines without `"\n"`; a line holding a newline splits into several on reading.
- QrGenerator.LoadAfterUpsert, QrGenerator.UpsertIdempotent: stated only for a name and a URL without `"\n"`; with a newline in the URL the next upsert keeps the non-blank pieces that do not start with the key prefix as orphan lines, and with a newline in the name it never matches the old record and duplicates it.
- JsString.Trim: JavaScript strings are UTF-16; `char` here is a Unicode scalar value, and the whitespace set is that of ECMAScript's WhiteSpace and LineTerminator.
