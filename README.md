# People list and bad-apple admission gate

A Dafny model of the two pieces of in-memory state in the demo server
`proxy-server.js`, plus the one small pure decision beside them.

- **People store** (module `People`). The server keeps a list of people
  `{id, name, email, role}` and a counter `nextId`. It starts with three
  records (ids 1 to 3) and `nextId = 4`. Four routes use the store:
  - the edit form looks a record up by id;
  - `POST` appends a new record under the next id;
  - `PUT` patches the found record in place, field by field;
  - `DELETE` replaces the list with a filtered copy.

  The lookups (`find`), the filter and the field patch are functions. The
  store is the class `PeopleStore`, whose methods reassign its `people` and
  `nextId` fields. The class invariant says that ids strictly increase in
  list order and stay below `nextId`, so ids are unique. Every method
  preserves it. Form fields are `Option<string>`, where `None` is an
  absent (`undefined`) body field. Insert stores the fields as given, as
  the source does. Update applies JavaScript's `supplied || current`:
  a field that is absent or empty keeps its old value.
- **Admission gate** (module `Gate`). This middleware sits in front of the
  `/api/bad-apple` proxy and counts active connections against
  `MAX_CONNECTIONS = 2`:
  - at the ceiling, a request gets 429 `"Too many connections"` and the
    counter does not change;
  - otherwise the counter goes up, and a close listener on the response
    brings it down again.

  The class `ConnectionGate` holds the counter. `TryAdmit` is the
  middleware and `Release` is the close listener. `Step`/`Run` replay
  sequences of arrive and close events. They track which connections hold
  a listener, and they prove that the counter always equals the number of
  open admitted connections and never exceeds the ceiling.
- **Close popover** (module `Popover`). This picks the id of the
  placeholder element that replaces a closed popover.

The server runs on a single-threaded event loop, so the check and the
increment in the middleware cannot interleave with another request. The
model therefore treats each event as one atomic step.

## Model

| member | source | states |
|---|---|---|
| `People.PeopleStore.constructor` | proxy-server.js:57-62 | the store starts with the three demo records and `nextId = 4`, and the id invariant holds |
| `People.IndexOf` | proxy-server.js:98 | finds the position of the first record with the id, scanning in list order; it answers `None` exactly when no record has the id |
| `People.FindById` | proxy-server.js:97-101 | the edit lookup answers not-found (404) exactly when no record has the id; otherwise it returns a record from the list with that id |
| `People.FindOwnId` | proxy-server.js:98 | when ids increase, looking up a record's own id returns exactly that record |
| `People.PeopleStore.Insert` | proxy-server.js:177-180 | the new record gets `id = old nextId` and the given fields, and is appended at the end; `nextId` goes up by one; the list grows by exactly that record, earlier records are unchanged, ids stay unique and increasing, and a lookup of the new id finds it |
| `People.Supplied` | proxy-server.js:198-200 | a request field is falsy for `\|\|`, so it does not replace the old value, exactly when it is absent or the empty string |
| `People.OrElse` | proxy-server.js:198-200 | `supplied \|\| current`: the result is one of the two; it is the supplied value when that is present and non-empty, and the current value otherwise |
| `People.Patch` | proxy-server.js:198-200 | the record after an update keeps its id; each of name, email and role takes the supplied value when it is present and non-empty, and otherwise keeps the old one |
| `People.PatchIdempotent` | proxy-server.js:198-200 | applying the same update twice has the same effect as applying it once |
| `People.PatchNothing` | proxy-server.js:198-200 | an update that supplies no non-empty field leaves the record unchanged |
| `People.PatchEverything` | proxy-server.js:198-200 | an update that supplies every field turns the record into those fields under its old id |
| `People.PatchKeepsInvariant` | proxy-server.js:198-200 | patching one record in place leaves every id unchanged, so ids stay increasing and below `nextId` |
| `People.PeopleStore.Update` | proxy-server.js:188-200 | an absent id gives not-found (404) and leaves the list unchanged; otherwise exactly the record with the id is replaced by its patched version and returned, all other records and `nextId` are unchanged, and the invariant holds |
| `People.Without` | proxy-server.js:213 | the filtered list holds exactly the records of the old list whose id differs, and it is no longer |
| `People.WithoutAppend` | proxy-server.js:213 | filtering a concatenation is the concatenation of the filtered parts, so kept records stay in their original order |
| `People.WithoutAbsent` | proxy-server.js:210-213 | filtering by an id that no record has returns the list unchanged |
| `People.WithoutKeepsIdsIncreasing` | proxy-server.js:213 | filtering keeps ids strictly increasing |
| `People.InsertThenDelete` | proxy-server.js:209-213 | deleting the id that insert just handed out gives back the list as it was before the insert |
| `People.PeopleStore.Delete` | proxy-server.js:209-213 | every record with the id is removed and the others keep their order; an absent id leaves the list unchanged; the reported name is the found record's name or "Person"; a later lookup of the id finds nothing; `nextId` and the invariant are kept |
| `Gate.Decide` | proxy-server.js:227-232 | a request is admitted exactly when the counter is below `MAX_CONNECTIONS`; otherwise it is rejected with 429 and "Too many connections" |
| `Gate.ConnectionGate.constructor` | proxy-server.js:220-221 | the counter starts at 0 with no connection open |
| `Gate.ConnectionGate.TryAdmit` | proxy-server.js:226-235 | gives the verdict for the counter as the request found it; a rejection leaves the counter unchanged, and an admission raises it by one and records the connection as open; the counter stays equal to the number of open admitted connections and within 0 and 2; the new state is `Step` of the old one on an arrival |
| `Gate.ConnectionGate.Release` | proxy-server.js:238-243 | the close listener of an admitted connection lowers the counter by one and drops that connection from the open ones; the new state is `Step` of the old one on that close |
| `Gate.SlotReuse` | proxy-server.js:220-245 | on a fresh gate, admit A, admit B, reject C with 429, close A, then D is admitted |
| `Gate.Step` | proxy-server.js:226-243 | one event: an arrival raises the counter exactly when it is below the ceiling and otherwise changes nothing; a close lowers it exactly when the connection was admitted and is still open, and otherwise changes nothing; the counter moves in step with the number of open admitted connections |
| `Gate.Run` | proxy-server.js:220-245 | replays events in order; over the whole sequence the counter changes by exactly as much as the number of open admitted connections does |
| `Gate.StepKeepsInv` | proxy-server.js:226-243 | one arrival or close keeps the counter equal to the number of open admitted connections and within the ceiling |
| `Gate.RunKeepsInv` | proxy-server.js:220-245 | over any sequence of arrivals and closes, the counter never exceeds 2 and equals the number of open admitted connections, so no slot leaks and none is freed twice |
| `Gate.RejectKeepsState` | proxy-server.js:227-232 | a request that finds the counter at the ceiling changes nothing |
| `Gate.AdmitThenCloseRestores` | proxy-server.js:234-243 | an admission raises the counter by one, and the close of that connection restores the whole state as it was before the admission |
| `Gate.SlotReuseTrace` | proxy-server.js:220-245 | the event sequence admit A, admit B, arrive C, close A, arrive D ends with B and D open and C never admitted |
| `Popover.PopoverId` | proxy-server.js:136-139 | type "edit" gives "edit-popover"; every other type gives "add-popover" |

## Left out

- HTML rendering of rows, forms and toasts, and the random quote route. These are presentation, and the quote route depends on `Math.random`.
- Express wiring, body parsing, CORS and OPTIONS handling, static files and `listen`. These are HTTP plumbing.
- `parseInt` on route ids. Ids are modelled as already-parsed integers, so a non-numeric id (NaN, which matches nothing) is not modelled. Numbers are unbounded integers, so there is no 2^53 limit on `nextId`.
- Body fields other than an absent value or a string (for example arrays from repeated form keys). These are not modelled.
- Object identity. Records are values in a sequence, and `Update` writes the patched record back at its position. In the source the found object is mutated through a reference, which has the same effect on the list.
- The forwarding in `http-proxy-middleware`: the path rewrite to `/examples/bad_apple/updates`, the forced `cache-control: no-cache` and `connection: keep-alive` headers, and the library's error response when the upstream fails. This library code is not part of this model.
- Gate.ConnectionGate.Release: requires that its connection is admitted and still open. The source decrements without a check, but only an admission registers the close listener, and Node emits `close` once per response.
- Diagnostic `console.log` output.
