# create-or-update-comment, modelled in Dafny

The action keeps one identifiable comment on a pull request. Each run builds
a hidden HTML-comment marker (the "preamble") from a caller-chosen `id`. It
looks among the comments the host lists for the first one whose body contains
that marker. If it finds one, it overwrites that comment with the new content.
Otherwise it creates a new comment. Outside a pull request it does nothing.

The model splits `run()` into four layers:

- `Text` holds prefixes and substrings. `Includes` is the scan that
  JavaScript's `includes` performs. `Contains` is its reference meaning, and
  `Includes`'s contract says the two agree.
- `Upsert` holds the pure decision. `Preamble` and `Content` build the marker
  and the payload. `Window` keeps only the first 25 listed comments, and
  `FirstMatch` and `FindComment` do the first-match search. `Decide` turns
  the pull-request number, the inputs and the listed comments into
  `Skip | Update(commentId, content) | Create(issue, content)`.
- `Remote` holds the pull request's comment list as an abstract state, in
  the host's listing order. It defines what a decision does to that state.
  The host chooses where a created comment appears in that order. It proves
  the frame facts. It also proves convergence and idempotence, provided the
  host lists a created comment among the first 25. Beyond that window the
  code creates a duplicate on every run.
- `Action` holds the whole invocation. The host's behaviour is an explicit
  input: whether listing or the mutation throws, and the id and listing
  position the host gives a new comment. The result is the calls issued, the report (skipped, succeeded,
  failed with a message, or swallowed) and the comment list afterwards.

Behaviour of the code a reader might not expect:

- The marker is matched anywhere in a body, not only as a prefix.
- Distinct ids do not give distinct slots. A title can carry another id's
  marker (`Upsert.TitleCanForgeOwnership`).
- The 25 comments inspected are the first 25 in the host's order. The code
  does not ask for the most recent ones.
- A thrown value that is not an `Error` is swallowed. The step is not marked
  failed.

## Model

| member | source | states |
|---|---|---|
| `Text.Includes` | src/main.ts:37 | the scan behind `includes` answers true exactly when the marker occurs somewhere in the body |
| `Upsert.IsPullRequest` | src/main.ts:11-12 | the guard fails exactly when the pull-request number is absent or 0 |
| `Upsert.Preamble` | src/main.ts:23 | the marker is `<!-- comment-id:`, then the id, then ` -->` and two newlines; its length is the id's length plus 22 |
| `Upsert.PreambleIsInjective` | src/main.ts:23 | two ids with the same marker are the same id |
| `Upsert.Content` | src/main.ts:24 | the content starts with the marker, followed by a newline, the title, two newlines and the body, in that order; its length is the sum of the parts plus 3 |
| `Upsert.ContentIsOwned` | src/main.ts:23-37 | any content a run writes contains that run's marker, for every title and body, empty ones included |
| `Upsert.Matches` | src/main.ts:37 | a comment matches exactly when its body is present and contains the marker; an absent body never matches |
| `Upsert.Window` | src/main.ts:30-35 | the search sees at most 25 comments: the whole list when it is shorter, otherwise its first 25 in host order |
| `Upsert.FindComment` | src/main.ts:37 | `find` returns nothing exactly when no comment in the window contains the marker; otherwise it returns the first comment in the window that does |
| `Upsert.FirstMatch` | src/main.ts:37 | the result is the position of the first matching comment, with none matching before it, or nothing when no comment matches |
| `Upsert.Decide` | src/main.ts:11-55 | it skips exactly when the pull-request number is absent or 0; an update names the first comment in the window that contains the marker; a create targets the pull request and happens only when no comment in the window contains the marker; both carry the composed content |
| `Upsert.DecideUpdatesFirstOwned` | src/main.ts:37-46 | with a pull request, if the first owned comment is at a position below 25, the decision updates that comment's id with the new content |
| `Upsert.DecideCreatesWhenWindowUnowned` | src/main.ts:30-55 | if none of the first 25 comments is owned, the decision creates a comment on the pull request, whatever lies further down the list |
| `Upsert.OwnedBeyondWindowIsMissed` | src/main.ts:30-37 | an owned comment at position 26 behind 25 bodiless comments is not found, and the run creates a duplicate |
| `Upsert.TitleCanForgeOwnership` | src/main.ts:23-37 | content written for one id whose title is another id's marker counts as owned by that other id |
| `Upsert.ReleaseNotesContent` | src/main.ts:23-24 | for id `release-notes`, title `Release v1.2` and body `Fixes bug X`, the content is exactly the expected literal string |
| `Remote.SetBody` | src/main.ts:41-46 | updating by comment id keeps the list length and every comment's id; the comment with that id gets the new body and all other comments stay the same |
| `Remote.Apply` | src/main.ts:39-55 | a skip changes nothing. An update keeps the count and every id, and a comment that changes gets the new content as its body. A create adds one comment with the host's new id and the content, at the position the host chose |
| `Remote.ApplyUpdateFrame` | src/main.ts:39-46 | when ids are unique, an update changes only the named comment's body; the count and every other comment stay the same |
| `Remote.ApplyCreateFrame` | src/main.ts:47-55 | a create adds exactly one comment, with the content and the host's new id, at the host's chosen position; the existing comments keep their order and contents around it |
| `Remote.SkipChangesNothing` | src/main.ts:11-15 | without a pull-request number (absent or 0) the comment list is unchanged |
| `Remote.ApplyKeepsIdsUnique` | src/main.ts:39-55 | ids stay unique after an update, and after a create whose new id was not already in use |
| `Remote.SecondRunUpdates` | src/main.ts:23-46 | after a run on a pull request, a second run with the same id updates the comment the first run wrote and creates nothing, for any new title and body, provided the host listed a created comment among the first 25 |
| `Remote.RunIsIdempotent` | src/main.ts:23-55 | running twice with the same inputs leaves the comment list as running once did, provided ids are unique, the new id is fresh, and the host lists a created comment among the first 25 |
| `Action.Run` | src/main.ts:8-60 | a run skips exactly outside a pull request. It makes at most two calls: first a listing of 25 comments of the pull request, then at most one update or create carrying the composed content. Success means both calls were made. Any other outcome leaves the list unchanged, and a failure's message is that of an `Error` one of the calls threw |
| `Action.Catch` | src/main.ts:56-59 | a thrown `Error` marks the step failed with the error's message; any other thrown value is swallowed and the step is not marked failed |
| `Action.RunSkipsOutsidePullRequest` | src/main.ts:11-35 | the run reports a skip exactly when the number is absent or 0; then there are no calls and no change; otherwise the first call lists 25 comments of that pull request |
| `Action.RunListFailure` | src/main.ts:30-59 | if listing throws, listing is the only call, the list is unchanged, and the report is the error's message (or nothing, for a non-`Error`) |
| `Action.RunMutationFailure` | src/main.ts:39-59 | if the update or create throws, the calls are the listing and that one mutation, the list is unchanged, and the report is the thrown `Error`'s message (a non-`Error` is swallowed) |
| `Action.RunUpdatesOwnedComment` | src/main.ts:30-46 | with an owned comment in the window, the calls are one listing and one update of the first owned comment, with no create; only that comment's body changes |
| `Action.RunCreatesComment` | src/main.ts:30-55 | with no owned comment in the window, the calls are one listing and one create on the pull request, with no update; the count grows by one and the existing comments keep their order and contents |
| `Action.RunConverges` | src/main.ts:23-55 | a second successful run with the same id updates the comment the first run updated or created, with the new content, provided ids are unique and the host lists a created comment among the first 25 |
| `Action.ReleaseNotesExample` | src/main.ts:23-55 | a first run for `release-notes` on an empty pull request makes one listing call and one create call, whose body starts with the marker, followed by the title and the body |

## Left out

- Reading inputs (`core.getInput`, including the error for a missing required input) is not modelled. The id, title and body are plain parameters.
- The token, the Octokit client and authentication are not modelled. The host is an explicit state plus a `Host` value that says which call throws.
- Logging (`core.info`, `core.setFailed`) is not modelled. The outcome is a `Report` value instead.
- The pull-request number is an `Option<int>`. JavaScript's `NaN`, which is also falsy, has no counterpart.
- The host's ordering and pagination are not modelled. The comment list is an arbitrary sequence in the host's listing order, and the search keeps the first 25.
- Where a created comment appears in the listing order is an input (`Host.insertAt`); a position past the end means the end.
- An update is assumed to keep the comment at its position in the listing order.
- Strings are sequences of Unicode characters, while JavaScript's `includes` works on UTF-16 code units. For well-formed text the two give the same substring answers.
- A created comment's id comes from the host. It is a parameter. Freshness is assumed only by `Remote.ApplyKeepsIdsUnique` and `Remote.RunIsIdempotent`, which need unique ids after a create.
- A call that throws is taken to have had no effect on the host.
- Concurrency between simultaneous runs is not modelled, because the code does nothing about it.
- Remote.SecondRunUpdates: convergence is proved only when the host lists a created comment among the first 25. Beyond that window the code does not converge (see `Upsert.OwnedBeyondWindowIsMissed`).
