# Attachment migration of the GitLab-to-GitHub migrator, in Dafny

`migrateAttachments(body, githubRepoId, s3, gitlabHelper)` takes the Markdown
body of a GitLab issue, merge request or note and gives every attachment
link in it a new home. The links are the ones that match
`(!?)\[([^\]]+)\]\((\/uploads[^)]+)\)`. For each link the function downloads the
attachment from GitLab. In S3 mode (settings present and the bucket non-empty)
it sends the bytes to an S3 object keyed `[<repoId>/]<sha256 of the path>/<basename>`
and records the object's public URL. Otherwise it saves the bytes under `/tmp`
and records whatever the `github-s3` helper prints. Each recorded link is
kept in `offsetToAttachment` under the offset of the match. A final `replace`
pass then swaps every matched span for the entry at its offset.

The model has seven modules:

- `Wrappers`: `Option` and `Result`.
- `StringOps`: the parts of the JavaScript runtime the function leans on.
  These are `String.prototype.trim`, POSIX `path.basename` and the decimal
  rendering of the repository id.
- `LinkPattern`: the regular expression. It is modelled as one attempt at
  an offset (`MatchAt`), as the leftmost match from an offset (`FindNext`),
  and as the global scan of `matchAll`/`replace` (`Scan`). It is proved against an
  independent description of what an occurrence is (`Occurs`).
- `S3Location`: the object key, the two host forms and the object URL.
- `Substitution`: the `replace` pass (`Splice`, `ReplaceAll`). It also holds
  the pass as evidently intended, where a link without an entry keeps its text
  (`ReplaceAllKeeping`).
- `Migration`: the outside world as an `Env` of four functions. These are the
  attachment download, the hex SHA-256 digest, the MIME lookup and the helper
  run on the saved file, which gives its stdout, stderr and exit status. The module holds one pass of the loop as a value
  (`Resolve`), the loop as a function (`RunFrom`), and the whole call
  (`Migrate`). It also holds the imperative code. `ResolvePass` is the body
  of the `for` loop for one match, with the `let hostname` that a region
  reassigns. `ResolveAll` is the loop that fills the `offsetToAttachment` map
  and stops at the first error thrown. `MigrateAttachments` runs that loop
  over the scan and then the replace pass. Each method is proved against the
  corresponding function.
- `MigrationFacts`: what the call promises, proved of `Migrate`.

## Model

| member | source | states |
|---|---|---|
| LinkPattern.MatchAtSpec | src/utils.ts:22 | one attempt of the pattern at offset `i` yields `m` exactly when `m` is an occurrence starting at `i`: optional `!`, `[`, a non-empty name without `]`, `](`, `/uploads` and at least one more character other than `)`, then `)` |
| LinkPattern.MatchAtComplete | src/utils.ts:22 | every occurrence is found by the attempt at its own offset |
| LinkPattern.NameAtSpec | src/utils.ts:22 | group 2 matches `name` at an offset exactly when a non-empty name without `]` is there followed by `](` |
| LinkPattern.PathAtSpec | src/utils.ts:22 | group 3 matches `path` at an offset exactly when `/uploads` plus at least one character without `)` is there followed by `)` |
| LinkPattern.OccurrenceUnique | src/utils.ts:22 | at most one occurrence starts at any offset, so a match is determined by where it starts |
| LinkPattern.OccursEnd | src/utils.ts:22 | an occurrence spans exactly the text `<marker>[<name>](<path>)` of its groups |
| LinkPattern.RenderParses | src/utils.ts:22 | a link rendered from a valid name and path is matched back to the same groups |
| LinkPattern.FindNext | src/utils.ts:30 | the leftmost occurrence at or after an offset, or none when no occurrence starts in the rest of the string |
| LinkPattern.Scan | src/utils.ts:30 | `matchAll` yields occurrences, non-overlapping and left to right, each the leftmost one after the previous match ends, and no occurrence after the last |
| LinkPattern.ScanUnique | src/utils.ts:30 | the scan is the only sequence of matches with those three properties |
| LinkPattern.ChainedOrdered | src/utils.ts:30 | the scanned matches have strictly increasing offsets and pairwise disjoint spans |
| LinkPattern.PlainThenLink | src/utils.ts:22-30 | text without `!` or `[` followed by one link scans to exactly that link, at the length of the text |
| StringOps.TrimSplits | src/utils.ts:102 | `trim` removes only whitespace, from the two ends |
| StringOps.TrimCharacterization | src/utils.ts:102 | whitespace around text that neither starts nor ends with whitespace trims to that text |
| StringOps.BasenameOfJoin | src/utils.ts:38 | `path.basename` of `<dir>/<name>` is `name` when `name` is non-empty and has no `/` |
| StringOps.DecimalRoundTrip | src/utils.ts:50 | the decimal rendering of the repository id parses back to the id |
| StringOps.DecimalInjective | src/utils.ts:50 | distinct ids render as distinct strings |
| S3Location.ObjectUrlForms | src/utils.ts:57-61 | with no (or an empty) region the URL is `https://<bucket>.s3.amazonaws.com/<key>`; with a region it is `https://s3.<region>.amazonaws.com/<bucket>/<key>` |
| S3Location.ObjectUrlInjective | src/utils.ts:57-61 | under one configuration distinct keys give distinct URLs |
| S3Location.ObjectKeyParts | src/utils.ts:46-51 | the key's last segment is the attachment's basename, and it starts with `<repoId>/` whenever the id is truthy |
| S3Location.RepoPrefixInjective | src/utils.ts:49-51 | two truthy repository ids give the same key only when they are equal |
| Substitution.SpliceIdentity | src/utils.ts:114-117 | replacing every matched span by its own text gives the input back: the gaps between spans are copied unchanged |
| Substitution.ReplaceAll | src/utils.ts:114-117 | with zero matches the replace pass returns the body unchanged |
| Substitution.ReplaceOne | src/utils.ts:114-117 | for a body with one link, the output is the text before it, the callback's value, then the text after it |
| Substitution.UnresolvedLinkBecomesUndefined | src/utils.ts:116 | a body that is one link without an entry comes out as the text "undefined" |
| Substitution.UnresolvedLinkKept | src/utils.ts:116 | with the intended callback that body comes out unchanged |
| Substitution.KeepingWithoutEntries | src/utils.ts:114-117 | with the intended callback, a body none of whose links has an entry comes out unchanged |
| Migration.Resolve | src/utils.ts:37-111 | in S3 mode a pass never fails and skips exactly when the attachment is missing. Without S3 it never skips. It fails with "not downloaded" on a missing attachment. It fails with `exec`'s "Command failed" error naming `github-s3 /tmp/<basename>` when the helper exits non-zero. It fails with the stderr text when the helper succeeds but writes to stderr. A rewrite is the link around the new URL and carries an upload request exactly in S3 mode |
| Migration.S3Rewrite | src/utils.ts:46-85 | in S3 mode a downloaded attachment gives the link around the object URL and a request for that bucket, key, bytes and content type |
| Migration.FallbackRewrite | src/utils.ts:88-110 | without S3, a downloaded attachment, a zero exit status and an empty stderr give the link around the trimmed stdout and no request |
| Migration.FallbackCommandFails | src/utils.ts:96-101 | without S3, a helper that exits non-zero makes the pass throw, with a message starting `Command failed: github-s3 /tmp/` |
| Migration.CommandFailedMessage | src/utils.ts:101 | the message of `exec`'s rejection begins with `Command failed: github-s3 /tmp/`, naming the helper and the temporary file |
| Migration.StepAt | src/utils.ts:32-36 | the outcome recorded for the k-th match is the pass over the k-th match |
| Migration.ResolvePass | src/utils.ts:33-111 | the imperative body of the loop for the i-th match (S3 key, host and URL built as the source builds them, or the helper's output) yields exactly the outcome `Resolve` specifies for that match |
| Migration.ResolveAll | src/utils.ts:25-112 | the imperative loop, updating `offsetToAttachment` and the request log in place, ends with exactly the state or error that `RunFrom` specifies |
| Migration.MigrateAttachments | src/utils.ts:16-118 | the whole call returns exactly what `Migrate` specifies, together with the requests `Issued` specifies |
| MigrationFacts.RunFailure | src/utils.ts:32-112 | the loop throws `e` exactly when some pass fails with `e` and no earlier pass fails |
| MigrationFacts.MigrateThrows | src/utils.ts:88-106 | the call throws `e` exactly when the first failing link's pass fails with `e` |
| MigrationFacts.S3NeverThrows | src/utils.ts:37-43 | in S3 mode the call always returns a body |
| MigrationFacts.S3PassesDoNotFail | src/utils.ts:37-85 | in S3 mode no pass over a link fails |
| MigrationFacts.PassesDoNotFailRun | src/utils.ts:32-112 | a loop none of whose passes fails completes |
| MigrationFacts.FallbackMissingAttachmentThrows | src/utils.ts:88-91 | without S3 one missing attachment makes the whole call throw |
| MigrationFacts.CallRewrites | src/utils.ts:83-85 | on completion `offsetToAttachment` has an entry at a link's offset exactly when its attachment was downloaded. That entry is the link with its marker and name around the new URL, and there are no other entries |
| MigrationFacts.RunWrites | src/utils.ts:83-110 | the loop writes an entry exactly at the offsets of rewriting passes, with that pass's text, and nowhere else |
| MigrationFacts.NoFailureOnSuccess | src/utils.ts:88-106 | when the call completes, no pass failed |
| MigrationFacts.CallbacksAsWritten | src/utils.ts:114-117 | after the loop the callback gives each resolved link its rewrite and each skipped link "undefined" |
| MigrationFacts.MigrateOutput | src/utils.ts:114-117 | the returned body has each resolved link replaced by its rewrite and each skipped one by "undefined", and the rest copied |
| MigrationFacts.NoLinksNoChange | src/utils.ts:30-117 | a body without attachment links comes back unchanged and nothing is uploaded |
| MigrationFacts.IssuedRequests | src/utils.ts:63-80 | the request log holds exactly one request per resolved link, in the order of the `createBucket` calls, which is link order |
| MigrationFacts.LinkKeepsMarker | src/utils.ts:33-35 | a rewritten link starts with `!` exactly when the match did, followed by `[<name>](` |
| MigrationFacts.RequestMatchesUrl | src/utils.ts:46-85 | in S3 mode the URL written into the body names the object whose upload was requested. That object is in the configured bucket, has the link's basename as the key's last segment, and carries the downloaded bytes and the MIME type |
| MigrationFacts.SamePathSameObject | src/utils.ts:46-61 | two links with the same path get the same upload request and the same new URL |
| MigrationFacts.IntendedOutput | src/utils.ts:114-117 | with the intended callback, resolved links are rewritten and skipped links keep their text |
| MigrationFacts.IntendedKeepsUnresolved | src/utils.ts:37-43 | with the intended callback, in S3 mode, a body none of whose attachments can be downloaded comes back unchanged |
| MigrationFacts.AllSkippedRun | src/utils.ts:41-43 | a loop whose passes all skip leaves the map and the request log as they were |
| MigrationFacts.SingleLinkRewritten | src/utils.ts:30-117 | for a body with one link that is rewritten, the text around the link is kept and at most one request is sent |
| MigrationFacts.FallbackScenario | src/utils.ts:88-117 | without S3, `see [img](/uploads/1/2/pic.png)` with the helper printing `https://host/x` and a newline becomes `see [img](https://host/x)`, and nothing is uploaded to S3 |

## Left out

- `sleep` is a timer with no logic.
- The S3 client is left out: creating the bucket, the upload, its callback and its logging. Each upload is a `PutRequest` appended to a log in link order. The upload is not awaited and its errors are only logged, so completion and failure are not modelled.
- Downloading from GitLab, writing the `/tmp` file and running `github-s3` are I/O. They are the functions `getAttachment` and `runUploader` of `Env`. The helper is given the temporary path and the bytes written there. Shell quoting of that path in the command line is not modelled.
- Resolve, ResolvePass: a failure of `fs.writeFileSync` is not modelled, and neither is a rejection of `exec` for output beyond its `maxBuffer`. Both make the source throw before the link is resolved, but the model resolves the link. A failed start or a kill of the helper is modelled as a non-zero exit status.
- The order in which the S3 client carries out the uploads is not modelled. Each `upload` runs in a `createBucket` callback. The request log follows the order of the `createBucket` calls.
- `crypto` SHA-256 (section 6.2 of FIPS 180-4) and `mime.lookup` are foreign libraries. They stay uninterpreted (`sha256Hex`, `mimeLookup`). A `false` from the MIME lookup is `None`, which is sent as an absent content type.
- `console.log` messages and the `async`/`await` sequencing have no effect on the result.
- In S3 mode the source computes the basename and MIME type before the download. As pure values, computing them in that order or after makes no difference.
- `githubRepoId` is an integer or absent. A fractional, `NaN` or `-0` id, and JavaScript's exponent notation for large numbers, are not modelled.
- Offsets are positions in a sequence of characters. JavaScript counts UTF-16 code units. Both the scan and the replace pass use the same counting, so the pairing of offsets is unaffected.
- `gitlabHelper` is reduced to its `getAttachment` method. The `GitlabHelper` and `S3Settings` classes are not part of this model beyond the fields used.

## Findings

| source | as written | input that shows it | evidently intended | confidence | as-written member | corrected member |
|---|---|---|---|---|---|---|
| src/utils.ts:116 | In S3 mode a link whose attachment cannot be downloaded gets no entry in `offsetToAttachment`. The `replace` callback then returns `undefined`, which `replace` writes as the text "undefined". | S3 mode, body `[a](/uploads/x)`, and `getAttachment` gives nothing: the body becomes `undefined` | the `continue` at lines 41-43 skips the link, and the link is left as it was | not executed | Substitution.UnresolvedLinkBecomesUndefined | MigrationFacts.IntendedKeepsUnresolved |

`Migrate` and `MigrateAttachments` model the code as written, including the
"undefined" text. `MigrationFacts.MigrateIntended` is the same call with the
intended replace pass. `Substitution.UnresolvedLinkKept` and
`MigrationFacts.IntendedOutput` state what that pass gives.
