# Ant File Publisher — a Dafny model of the publish-and-notify run

The Ant task `Publisher` uploads a build artifact to Google Drive. It then
sends the download link to a Skype contact and renames the uploaded file with
the time the message went out. This project models the decision logic of that
run as pure functions. Every Drive or Skype call becomes an input, an
`Oracle` value saying what the collaborator did. A run returns the calls it
made (with their arguments), the final message text and the log lines.

Modules:

- `Wrappers` (wrappers.dfy): `Option`, standing for Java's nullable references.
- `Text` (text.dfy): the Java string operations the task uses. These are the
  null-or-empty test, `null + String`, `java.io.File.getName`, and
  `String.replace` with its reference definition (split at the target, join
  with the replacement).
- `Drive` (drive.dfy): the Drive `File` metadata, the upload metadata, the
  update patch, the rename, and how Drive merges a patch into a stored record.
- `Skype` (skype.dfy): the `send` outcome and its `-1` sentinel, which an exception at logout, after the message went out, does not produce.
- `Publisher` (publisher.dfy): the request, the oracle, the call slots and
  their ordered trace, the two stages of `execute`, `execute` itself, and
  `main`'s argument loop.

Behaviour stated explicitly:

- A null `mMessage` with a link to append becomes the text `"null"` followed
  by the link, as Java's `+` does (`Text.JavaString`). Without a link the
  message stays null and is passed to `send` as null.
- The rename replaces EVERY ".zip" in the base name, not only a trailing
  extension. A base name without ".zip" keeps its name.
- The rename puts the formatted time directly in front of ".zip". The
  `dd-MMM-yyyy--HH-mm-ss` pattern gives `build01-Jan-2016--10-00-00.zip` for
  `build.zip`. There is no `--` between the stem and the time, even though a
  reader might expect `build--<time>.zip`; the model follows the code.
- The formatter for the new name uses the JVM's default time zone. Only the
  patch's modified time is built in UTC. The formatted texts are inputs
  (`Oracle.nameStamp`, `Oracle.logStamp`), so the model fixes no zone for them.

## Model

| member | source | states |
|---|---|---|
| `Publisher.Execute` | src/ru/nikitenkogleb/antfilepublisher/Publisher.java:213-247 | Drive is authorized with the client-secret file, and only when file name, description and client-secret file are all non-empty; otherwise no call is made and the message and logs stay as they were. The service exists iff that guard holds and authorization succeeded. The link is appended iff create gave a non-empty id. Send happens iff login, password and contact are non-empty and a service exists, with the possibly unmodified message. Update happens iff send did not return -1, with the possibly-null file id. The logs are exactly the upload line and the sent line under those conditions. |
| `Publisher.UploadStage` | src/ru/nikitenkogleb/antfilepublisher/Publisher.java:214-232 | The Drive branch authorizes only behind its guard. It creates only with a service, using the upload metadata and the local path. It logs the upload and appends the link only for a non-empty id. |
| `Publisher.NotifyStage` | src/ru/nikitenkogleb/antfilepublisher/Publisher.java:234-245 | Send is gated on the Skype attributes and the service, not on the upload. Update and the "Link was sent on" line follow exactly a result other than -1, whatever update answers. Nothing else runs after -1. |
| `Publisher.ExecuteCallsInStageOrder` | src/ru/nikitenkogleb/antfilepublisher/Publisher.java:218-245 | Calls come in the order authorize, create, send, update, each at most once. |
| `Publisher.NotifyAfterFailedUpload` | src/ru/nikitenkogleb/antfilepublisher/Publisher.java:226-239 | After a successful authorization and a failed upload, the unmodified message is still sent. A successful send then triggers an update with a null file id. |
| `Publisher.NoNotifyWithoutService` | src/ru/nikitenkogleb/antfilepublisher/Publisher.java:234-236 | Without a service nothing is sent or updated, and the message keeps its original text. |
| `Publisher.ReleaseScenario` | src/ru/nikitenkogleb/antfilepublisher/Publisher.java:213-247 | When every collaborator succeeds for `base.zip` with an empty folder id, where `base` holds no '/' and no ".zip" but may hold dots, the run makes exactly four calls: authorize with the secret file; create with the plain name and no parent; send the message plus the link to the new id; update the same id with `base<time>.zip` and the UTC sent time. It logs the two lines. |
| `Publisher.FromArgs` | src/ru/nikitenkogleb/antfilepublisher/Publisher.java:190-205 | `args[k]` for k < 8 fills the k-th attribute in the order fileName, description, clientSecretFile, folderId, login, password, userName, message. Missing arguments leave attributes null, and arguments past the eighth are ignored. |
| `Publisher.CommandLine` | src/ru/nikitenkogleb/antfilepublisher/Publisher.java:189-210 | `main` runs `execute` on the request built from the arguments. With fewer than three arguments, no collaborator is called and nothing is logged. |
| `Drive.UploadMetadata` | src/ru/nikitenkogleb/antfilepublisher/Publisher.java:330-343 | The upload metadata has the base name of the path, the given description and mime type "application/zip". Created and modified time are the same timestamp. Parents is `[folderId]` exactly when the folder id is non-null and non-empty, and unset otherwise. |
| `Drive.UpdatePatch` | src/ru/nikitenkogleb/antfilepublisher/Publisher.java:364-375 | The update patch sets only the new name and the modified time, which is the sent time in UTC. Description, mime type, created time and parents are unset. |
| `Drive.UpdateKeepsUploadedProperties` | src/ru/nikitenkogleb/antfilepublisher/Publisher.java:372-378 | Applied to an uploaded record, the patch changes name and modified time only. Description, mime type, creation time and parent folder stay. |
| `Drive.RenamedNameDecomposition` | src/ru/nikitenkogleb/antfilepublisher/Publisher.java:366-369 | The new name comes from cutting the base name at every ".zip" into pieces free of ".zip" that rejoin to the base name. Rejoining those pieces with `time + ".zip"` gives the new name. |
| `Drive.RenamedNameUnchangedIff` | src/ru/nikitenkogleb/antfilepublisher/Publisher.java:366-369 | The rename leaves the base name unchanged iff the base name holds no ".zip" or the formatted time is empty. |
| `Drive.RenamedNameLength` | src/ru/nikitenkogleb/antfilepublisher/Publisher.java:366-369 | The new name is longer by the formatted time once per ".zip" occurrence. |
| `Drive.RenamedNameOfPlainArchive` | src/ru/nikitenkogleb/antfilepublisher/Publisher.java:366-369 | `base.zip`, where `base` holds no '/' and no ".zip", is renamed `base<time>.zip`. Dots in the stem stay: `app-1.2.zip` becomes `app-1.2<time>.zip`. |
| `Drive.ReplaceExtensionAfterFreeStem` | src/ru/nikitenkogleb/antfilepublisher/Publisher.java:366-369 | In a stem free of ".zip" followed by ".zip", `replace` rewrites only the final extension. ".zip" overlaps no proper suffix of itself, so no occurrence straddles the stem and the extension. |
| `Skype.SendFailsIff` | src/ru/nikitenkogleb/antfilepublisher/Publisher.java:394-406 | `send` returns -1 iff an exception was caught before the sent time was read (login, contact lookup, send), or Skype reported the sent time -1. A `ConnectionException` from `logout` after the send does not make `send` return -1. |
| `Skype.SendReportsSentTime` | src/ru/nikitenkogleb/antfilepublisher/Publisher.java:395-406 | Once the message went out, `send` returns its sent time, whether logout succeeded or threw. |
| `Text.BaseName` | src/ru/nikitenkogleb/antfilepublisher/Publisher.java:332-336 | The base name of a path never holds a '/'. |
| `Text.LastComponent` | src/ru/nikitenkogleb/antfilepublisher/Publisher.java:336 | The name part is the longest '/'-free suffix of the normalised path. |
| `Text.StripTrailingSlashes` | src/ru/nikitenkogleb/antfilepublisher/Publisher.java:332 | Normalisation removes only trailing '/' characters and leaves a path that does not end in '/'. |
| `Text.BaseNameOfPlainName` | src/ru/nikitenkogleb/antfilepublisher/Publisher.java:336 | A path without '/' is its own base name. |
| `Text.ReplaceAllWithoutTarget` | src/ru/nikitenkogleb/antfilepublisher/Publisher.java:368-369 | `String.replace` leaves a string without the target unchanged. |
| `Text.ReplaceAllGrows` | src/ru/nikitenkogleb/antfilepublisher/Publisher.java:366-369 | Putting a non-empty time in front of each occurrence makes a string that holds the target strictly longer. |
| `Text.ReplaceAllIsJoin` | src/ru/nikitenkogleb/antfilepublisher/Publisher.java:368-369 | `String.replace` equals splitting at every occurrence of the target and joining with the replacement. |
| `Text.SplitJoin` | src/ru/nikitenkogleb/antfilepublisher/Publisher.java:368-369 | Joining the pieces with the target gives back the string. |
| `Text.SplitPartsFree` | src/ru/nikitenkogleb/antfilepublisher/Publisher.java:368-369 | No piece contains the target, so every occurrence is replaced. |
| `Text.OccursIffSeveralPieces` | src/ru/nikitenkogleb/antfilepublisher/Publisher.java:368-369 | A string contains the target iff splitting at it yields at least two pieces. |
| `Text.Split` | src/ru/nikitenkogleb/antfilepublisher/Publisher.java:368-369 | Splitting gives at least one piece, and the first piece is a prefix of the string. |

## Left out

- The OAuth flow in `getDriveService`/`authorize` (lines 255-317) is library and file I/O: transport, client secrets, the token cache under `~/.credentials`, the local callback server. It is the input `Oracle.authorized`.
- The Drive `create`/`update` requests and the Skype login, contact lookup, send and logout (lines 347, 378, 396-402) are network clients. Their answers are the inputs `Oracle.created` and `Oracle.delivery`. Skype's inner steps, including the logout that is skipped on an exception, are not traced.
- `updateFile`'s own answer is not an input: `execute` discards it (line 239).
- `System.currentTimeMillis()` (line 330) is the input `Oracle.now`.
- `SimpleDateFormat` rendering and time-zone handling (lines 241-242, 364-367) are the input strings `Oracle.nameStamp` and `Oracle.logStamp`.
- Exceptions that `execute` does not catch are not modelled. Examples: a null message handed to Skype, a Drive client that rejects a null file id on update, a contact lookup that answers null. The model assumes each collaborator either answers or raises one of the caught exceptions.
- The stack traces printed for caught exceptions are diagnostics, not log lines, and are not modelled. Ant's `Task.log` is a sequence of strings.
- The constructor and the attribute setters (lines 132-182) only store values; the `Request` datatype stands for them.
- Java strings are UTF-16, while a Dafny `string` is a sequence of Unicode scalar values. `getName` and `replace` split on ASCII characters, so names and messages come out the same. Lengths differ: `Drive.RenamedNameLength` counts code points, not Java `length()` units.
- `Text.BaseName` follows `java.io.File` on a Unix file system ('/' as the only separator); Windows separators and drive prefixes are not modelled.
- Running the task twice creates two remote files and sends two messages. That is a property of the remote services and is outside a single-run model.
