# Escaramuza activity monitor — verified model of its change detection

The program scrapes the agenda page of Escaramuza for activity
titles, compares them with the titles it saved on its
previous run, e-mails the operator the titles that are new, and then saves the
current titles for next time. This project models that change-detection step in
Dafny and proves what it does:

- `Changes` (`changes.dfy`): the deduplication `list(set(titles))` applied to the
  extracted titles, and the list comprehension that keeps the current titles not
  found in the previous list.
- `Notice` (`notice.dfy`): the subject and body of the e-mail (`Compose`). The body is the fixed
  prefix, the new titles joined by line breaks, a separator and the page address.
- `Pipeline` (`monitor.dfy`): the snapshot file as a datatype (absent, holding a
  list, or unreadable), `cargar_previas`, the pure specification `Step` of one run,
  and the class `Monitor`. Its field `file` is the persisted snapshot. Its method
  `Run` does what `main` does and is proved equal to `Step`.
- `Seqs`, `Wrappers` (`seqs.dfy`, `wrappers.dfy`): general facts about sequences
  (duplicate-freedom, order-keeping subsequences) and `Option`/`Result`.

The fetch, the HTML parsing, the JSON (de)serialisation and the SMTP session are
not modelled. A run takes two inputs: the titles that `obtener_actividades`
returned, and whether `enviar_correo` returns without raising (`delivered`).

Three behaviours of the code are modelled as written:

- An empty extraction is not treated specially. It finds nothing new and still
  overwrites the snapshot with `[]` (`StepEmptyExtraction`).
- A snapshot file that does not parse is not read as empty. `json.load` raises,
  `main` stops, and no mail is sent and nothing is saved (`Load`, `Step`).
- A failing send is not absorbed. When `enviar_correo` raises, `guardar_actividades`
  on line 58 is never reached and the snapshot keeps its old contents. The next run
  then reports the same titles again, and saves them once `enviar_correo` returns normally
  (`StepRepeatAborted`).

## Model

| member | source | states |
|---|---|---|
| Changes.Dedup | main.py:20-21 | the deduplicated titles have no repeats and hold exactly the extracted titles |
| Changes.DedupUpToOrder | main.py:21 | every duplicate-free list of the same titles, in whatever order `set` yields, is a permutation of `Dedup`'s result |
| Changes.DedupLength | main.py:21 | the deduplicated list has one entry per distinct extracted title |
| Changes.Diff | main.py:54 | a title is in `nuevas` iff it is in `actuales` and not in `previas`; `nuevas` is an order-keeping subsequence of `actuales` |
| Changes.DiffNoDups | main.py:21-54 | `nuevas` has no repeats whenever `actuales` has none |
| Changes.DiffCount | main.py:54 | each title occurs in `nuevas` as often as in `actuales` if absent from `previas`, and not at all otherwise |
| Changes.DiffPermutation | main.py:54 | reordering `actuales` reorders `nuevas` and changes nothing else |
| Changes.DiffPreviousAsSet | main.py:54 | `nuevas` depends only on the set of previous titles |
| Changes.DiffNoPrevious | main.py:27-54 | with an empty previous list, `nuevas` equals `actuales` |
| Changes.DiffEmpty | main.py:54-55 | `nuevas` is empty iff every current title is among the previous ones |
| Notice.Body | main.py:35 | the body is the prefix, then the joined titles, then the separator and the URL, at those positions |
| Notice.SplitJoin | main.py:35 | joining a non-empty list of break-free titles with `"\n"` can be undone by splitting on `"\n"` |
| Notice.BodyRoundTrip | main.py:35 | reading the list back out of a body gives exactly the titles that were sent |
| Notice.BodyMentions | main.py:35 | every new title occurs verbatim in the body |
| Notice.Compose | main.py:34-35 | the message has the fixed subject, its body names every new title, and the titles can be read back from the body addressed to the page URL |
| Pipeline.Load | main.py:23-27 | an absent file gives `[]`, a parsed file gives its list, an unreadable file gives a failure |
| Pipeline.Step | main.py:49-61 | the notifier is called iff `nuevas` is non-empty, always with `nuevas`; a run completes exactly when the snapshot is readable and either nothing is new or `enviar_correo` returns normally; a completed run leaves the snapshot equal to `actuales`; a run that raises leaves it unchanged; a corrupt-snapshot failure happens exactly for an unreadable file |
| Pipeline.StepReportsExactlyNew | main.py:54-57 | a title is reported iff it is current and absent from the stored snapshot |
| Pipeline.StepNoticeNoDups | main.py:21-57 | the reported list has no repeats when the current list has none |
| Pipeline.StepDedupNoticeNoDups | main.py:21-57 | the list handed to the notifier, for titles that come out of `list(set(...))`, has no repeats |
| Pipeline.StepIdempotent | main.py:54-61 | after a completed run, a run given the same set of titles in any order reports nothing and stores the titles in the new order; given the identical list it leaves the snapshot unchanged |
| Pipeline.StepFirstRun | main.py:24-58 | with no snapshot file, every current title is reported, and a run whose `enviar_correo` returns normally saves `actuales` |
| Pipeline.StepEmptyExtraction | main.py:54-61 | an empty extraction reports nothing and overwrites the snapshot with `[]` |
| Pipeline.StepPreviousAsSet | main.py:54 | the outcome depends only on the set of stored titles |
| Pipeline.StepNoNews | main.py:54-61 | a run reports nothing iff every current title is already stored |
| Pipeline.StepExamples | main.py:49-61 | an unchanged page gives no news and keeps the snapshot; the same titles in another order give no news but rewrite the snapshot in that order; a first title on an empty snapshot is reported once and saved |
| Pipeline.StepRepeatAborted | main.py:26-58 | after a run that raised, the next run behaves as a first run on the same file; given the identical list it hands the notifier the same list again and saves `actuales` once `enviar_correo` returns normally; given the same titles in another order it hands over the same set of titles |
| Pipeline.Monitor.Save | main.py:29-31 | the stored file afterwards holds exactly the given list |
| Pipeline.Monitor.Run | main.py:49-61 | the new snapshot and the outcome are those of `Step` on the old snapshot |
| Pipeline.Monitor.RunTwice | main.py:49-61 | two runs follow `Step` twice; when the second is given the same set of titles (possibly reordered), a completed first run makes the second report nothing and store the second list; if the first raised, the second acts on the untouched file and retries the same titles (the same list when the list is identical) |

## Left out

- The HTTP GET of the page (main.py:18): network I/O. Its result only reaches the model through the titles given to `Run`. A transport error raises before anything is read or written. The call sets no timeout and does not check the status code: an error page (4xx/5xx) is parsed like any other, its headings (often none) become `actuales` and overwrite the snapshot, and the next good fetch reports every title again. The model covers this only in that `Run` accepts any `actuales`, including `[]`; it does not model the status code or the timeout.
- The HTML parsing and the CSS selection `h2, h3, .event-title, .activity-title` with `get_text(strip=True)` (main.py:19-20): a foreign library. The extracted titles are an input.
- `json.load` and `json.dump` and the file handling (main.py:24-31): file I/O and a foreign serialiser. The file is the abstract `SnapshotFile`. The model assumes that `json.load` reads back exactly the list `json.dump` wrote: `Save` leaves `Holds(actuales)` and `Load` returns that list, and `StepIdempotent` and `RunTwice` rest on this assumption; the JSON round trip itself is not proved. A failed or interrupted write is not modelled either: `open(..., "w")` (main.py:30) truncates the file before `json.dump` (main.py:31) writes it, so a failure there would leave an `Unreadable` file, after which every run aborts with `CorruptSnapshot`. A file that parses to something other than a list of strings is not modelled.
- The MIME message, the sender and recipient addresses and the SMTP_SSL login and send (main.py:37-45): foreign libraries and the network. Only the subject and body (`Notice.Compose`) and whether `enviar_correo` returns without raising are modelled.
- Delivery versus return: the SMTP session can raise after `send_message` has already handed the mail over (leaving the `with` block sends QUIT, and a reply other than 221 raises). The mail then went out, yet the run aborts. The model treats that run as `delivered = false` (`Aborted(SendError, Some(nuevas))`, snapshot unchanged), so the repeat notice of the next run (`StepRepeatAborted`) is in that case a duplicate mail. Whether the operator actually received a message is not modelled.
- The configuration constants, the environment lookup of the password (main.py:9-15) and the `print` lines: they have no behaviour to verify. The page URL is the constant `Notice.Url`.
- Changes.Dedup: Python's `set` fixes no order, and string hashing is randomised per process, so two runs over the same page can see different orders. The model picks one order (the last occurrence of each title), and the properties of `Dedup` itself are stated over sets and multisets; `DedupUpToOrder` shows that any other order is a permutation of it. The two-run members (`StepIdempotent`, `StepRepeatAborted`, `RunTwice`) take the second run's list as a separate input with the same set of titles, so they cover every order; they show that the snapshot is then rewritten in the new order although nothing is reported.
- Notice.SplitJoin: the round trip needs titles that contain no line break. `get_text(strip=True)` trims only the ends of each text piece, so a title with an inner line break would read back as two.
