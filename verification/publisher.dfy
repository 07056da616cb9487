/**
  The publish-and-notify run of the Ant task: the command-line mapping into a
  request, and `execute`, which uploads the artifact to Drive, appends a
  download link to the message, sends the message over Skype and then renames
  the uploaded file. Every collaborator's outcome comes from an `Oracle`; the
  run returns the calls it made, the message it ended with and its log lines.
 */
module Publisher {
  import opened Wrappers
  import opened Text
  import opened Drive
  import opened Skype

  /** The eight task attributes; an attribute that was never set is `None` (null). */
  datatype Request = Request(
    fileName: Option<string>,
    description: Option<string>,
    clientSecretFile: Option<string>,
    folderId: Option<string>,
    login: Option<string>,
    password: Option<string>,
    userName: Option<string>,
    message: Option<string>)
  {
    /** The attribute filled by the `k`-th command-line argument. */
    function Field(k: int): Option<string>
      requires 0 <= k < ArgumentCount
    {
      match k
      case 0 => fileName
      case 1 => description
      case 2 => clientSecretFile
      case 3 => folderId
      case 4 => login
      case 5 => password
      case 6 => userName
      case _ => message
    }
  }

  /** The number of positional arguments the command line reads. */
  const ArgumentCount := 8

  /** What each collaborator does when it is called. */
  datatype Oracle = Oracle(
    authorized: bool,              // getDriveService built a service (false: it returned null)
    now: Long,                     // System.currentTimeMillis() during the upload
    created: Option<RemoteFile>,   // the file files().create answered with (None: threw or null)
    delivery: Delivery,            // what the Skype client did
    nameStamp: string,             // the sent time formatted as dd-MMM-yyyy--HH-mm-ss
    logStamp: string)              // the sent time formatted as yyyy-MMM-dd HH:mm:ss

  /** A call to a collaborator, with its arguments. */
  datatype Call =
    | GetDriveService(clientSecretFile: string)
    | CreateFile(metadata: FileMeta, contentPath: string)
    | SendMessage(login: string, password: string, friend: string, text: Option<string>)
    | UpdateFile(fileId: Option<string>, patch: FileMeta)
  {
    /** The position of the call's stage in a run. */
    function Stage(): nat {
      match this
      case GetDriveService(_) => 0
      case CreateFile(_, _) => 1
      case SendMessage(_, _, _, _) => 2
      case UpdateFile(_, _) => 3
    }
  }

  /** The calls of one run, one slot per stage; `None` means the stage's call was not made. */
  datatype Calls = Calls(authorize: Option<Call>, create: Option<Call>, send: Option<Call>, update: Option<Call>)
  {
    /** Each slot holds a call of its own stage. */
    predicate WellSlotted() {
      && (authorize.Some? ==> authorize.value.GetDriveService?)
      && (create.Some? ==> create.value.CreateFile?)
      && (send.Some? ==> send.value.SendMessage?)
      && (update.Some? ==> update.value.UpdateFile?)
    }

    /** The calls in the order they were made. */
    function Trace(): seq<Call> {
      Made(authorize) + Made(create) + Made(send) + Made(update)
    }
  }

  function Made(c: Option<Call>): (t: seq<Call>)
    ensures |t| <= 1
  {
    if c.Some? then [c.value] else []
  }

  const NoCalls := Calls(None, None, None, None)

  /** Calls appear in stage order, each stage at most once. */
  predicate InStageOrder(t: seq<Call>) {
    forall i, j :: 0 <= i < j < |t| ==> t[i].Stage() < t[j].Stage()
  }

  /** The trace of a well-slotted record lists its calls in stage order. */
  lemma {:induction false} TraceInStageOrder(c: Calls)
    requires c.WellSlotted()
    ensures InStageOrder(c.Trace())
    ensures forall x :: x in c.Trace() <==> Some(x) in [c.authorize, c.create, c.send, c.update]
  {
    var a, b, s, u := Made(c.authorize), Made(c.create), Made(c.send), Made(c.update);
    var t := c.Trace();
    assert t == a + b + s + u;
    forall i, j | 0 <= i < j < |t|
      ensures t[i].Stage() < t[j].Stage()
    {
      var stageOf := (k: int) requires 0 <= k < |t| =>
        if k < |a| then 0 else if k < |a| + |b| then 1 else if k < |a| + |b| + |s| then 2 else 3;
      assert forall k :: 0 <= k < |t| ==> t[k].Stage() == stageOf(k);
    }
  }

  /** The state of a run: the `service` and `fileId` locals of `execute`, the
      calls made so far, the message text and the log lines. */
  datatype Outcome = Outcome(
    service: bool,
    fileId: Option<string>,
    calls: Calls,
    message: Option<string>,
    logs: seq<string>)

  /** The text appended to the message once the file has an id. */
  function DownloadLink(fileId: string): string {
    "\nhttps://drive.google.com/uc?export=download&id=" + fileId
  }

  function UploadLog(fileName: string, fileId: string): string {
    fileName + " uploaded. File ID: " + fileId
  }

  function SentLog(stamp: string): string {
    "Link was sent on " + stamp
  }

  /** Guard of the Drive branch: file name, description and client-secret file given. */
  predicate DriveGuard(req: Request) {
    Present(req.fileName) && Present(req.description) && Present(req.clientSecretFile)
  }

  /** Guard of the Skype branch, without the service: login, password and contact given. */
  predicate NotifyGuard(req: Request) {
    Present(req.login) && Present(req.password) && Present(req.userName)
  }

  /** The upload produced a file id the link can carry. */
  predicate Uploaded(req: Request, o: Oracle) {
    DriveGuard(req) && o.authorized && Present(ResultId(o.created))
  }

  /** The Drive branch of `execute`: authorize, upload, and on a file id log
      the upload and append the download link to the message. */
  function UploadStage(req: Request, o: Oracle): (s: Outcome)
    ensures s.service <==> DriveGuard(req) && o.authorized
    ensures s.fileId == (if s.service then ResultId(o.created) else None)
    ensures s.calls.authorize == (if DriveGuard(req) then Some(GetDriveService(req.clientSecretFile.value)) else None)
    ensures s.calls.create.Some? <==> s.service
    ensures s.service ==> (s.calls.create.value
      == CreateFile(UploadMetadata(req.fileName.value, req.description.value, req.folderId, o.now), req.fileName.value))
    ensures s.calls.send.None? && s.calls.update.None?
    ensures s.message == (if Uploaded(req, o)
                          then Some(JavaString(req.message) + DownloadLink(ResultId(o.created).value))
                          else req.message)
    ensures s.logs == (if Uploaded(req, o) then [UploadLog(req.fileName.value, ResultId(o.created).value)] else [])
  {
    if DriveGuard(req) then
      var service := o.authorized;
      var fileId := if service then ResultId(o.created) else None;
      var calls := NoCalls.(authorize := Some(GetDriveService(req.clientSecretFile.value)));
      var calls := if service then
          calls.(create := Some(CreateFile(UploadMetadata(req.fileName.value, req.description.value, req.folderId, o.now),
                                           req.fileName.value)))
        else calls;
      if Present(fileId) then
        Outcome(service, fileId, calls,
                Some(JavaString(req.message) + DownloadLink(fileId.value)),
                [UploadLog(req.fileName.value, fileId.value)])
      else
        Outcome(service, fileId, calls, req.message, [])
    else
      Outcome(false, None, NoCalls, req.message, [])
  }

  /** The Skype branch of `execute`: send the message when the guard holds and
      a service exists; unless `send` answered the sentinel, rename the file
      and log the sent time. */
  function NotifyStage(req: Request, o: Oracle, s: Outcome): (out: Outcome)
    requires s.service ==> DriveGuard(req)
    requires s.calls.send.None? && s.calls.update.None?
    ensures out.service == s.service && out.fileId == s.fileId && out.message == s.message
    ensures out.calls.authorize == s.calls.authorize && out.calls.create == s.calls.create
    ensures out.calls.send.Some? <==> NotifyGuard(req) && s.service
    ensures out.calls.send.Some? ==>
      out.calls.send.value == SendMessage(req.login.value, req.password.value, req.userName.value, s.message)
    ensures out.calls.update.Some? <==> out.calls.send.Some? && Send(o.delivery) != Sentinel
    ensures out.calls.update.Some? ==>
      out.calls.update.value == UpdateFile(s.fileId, UpdatePatch(req.fileName.value, o.nameStamp, Send(o.delivery)))
    ensures out.logs == s.logs + (if out.calls.update.Some? then [SentLog(o.logStamp)] else [])
  {
    if NotifyGuard(req) && s.service then
      var sentTime := Send(o.delivery);
      var sent := s.(calls := s.calls.(send := Some(SendMessage(req.login.value, req.password.value,
                                                                 req.userName.value, s.message))));
      if sentTime != Sentinel then
        sent.(calls := sent.calls.(update := Some(UpdateFile(s.fileId, UpdatePatch(req.fileName.value, o.nameStamp, sentTime)))),
              logs := sent.logs + [SentLog(o.logStamp)])
      else
        sent
    else
      s
  }

  /** `execute`: the whole run. */
  function Execute(req: Request, o: Oracle): (out: Outcome)
    // the Drive branch runs only behind its guard, and leaves no service otherwise
    ensures out.service <==> DriveGuard(req) && o.authorized
    ensures !DriveGuard(req) ==> out.calls.Trace() == [] && out.logs == [] && out.message == req.message
    ensures out.calls.authorize == (if DriveGuard(req) then Some(GetDriveService(req.clientSecretFile.value)) else None)
    ensures out.fileId == (if out.service then ResultId(o.created) else None)
    ensures out.calls.create.Some? <==> out.service
    ensures out.calls.create.Some? ==> (out.calls.create.value
      == CreateFile(UploadMetadata(req.fileName.value, req.description.value, req.folderId, o.now), req.fileName.value))
    // the link is appended exactly when the upload produced a non-empty id
    ensures out.message == (if Uploaded(req, o)
                            then Some(JavaString(req.message) + DownloadLink(ResultId(o.created).value))
                            else req.message)
    // the message goes out exactly when the Skype guard holds and a service exists
    ensures out.calls.send.Some? <==> NotifyGuard(req) && out.service
    ensures out.calls.send.Some? ==>
      out.calls.send.value == SendMessage(req.login.value, req.password.value, req.userName.value, out.message)
    // the rename follows exactly a send that did not answer the sentinel, with whatever id there is
    ensures out.calls.update.Some? <==> out.calls.send.Some? && Send(o.delivery) != Sentinel
    ensures out.calls.update.Some? ==>
      out.calls.update.value == UpdateFile(out.fileId, UpdatePatch(req.fileName.value, o.nameStamp, Send(o.delivery)))
    ensures out.logs == (if Uploaded(req, o) then [UploadLog(req.fileName.value, ResultId(o.created).value)] else [])
                        + (if out.calls.update.Some? then [SentLog(o.logStamp)] else [])
    ensures out.calls.WellSlotted()
  {
    NotifyStage(req, o, UploadStage(req, o))
  }

  /** A run's calls happen in stage order: authorize, create, send, update. */
  lemma ExecuteCallsInStageOrder(req: Request, o: Oracle)
    ensures InStageOrder(Execute(req, o).calls.Trace())
  {
    TraceInStageOrder(Execute(req, o).calls);
  }

  /** The Skype guard looks at the service, not at the upload: once authorized,
      the message goes out even though the upload produced no id, and it goes
      out without a link; when `send` succeeds, the rename is requested with a
      null id. */
  lemma NotifyAfterFailedUpload(req: Request, o: Oracle)
    requires DriveGuard(req) && NotifyGuard(req) && o.authorized
    requires ResultId(o.created).None?
    ensures var out := Execute(req, o);
      && out.calls.send == Some(SendMessage(req.login.value, req.password.value, req.userName.value, req.message))
      && (Send(o.delivery) != Sentinel ==>
            out.calls.update == Some(UpdateFile(None, UpdatePatch(req.fileName.value, o.nameStamp, Send(o.delivery)))))
  {
  }

  /** Without a service nothing is sent, whatever the Skype attributes say. */
  lemma NoNotifyWithoutService(req: Request, o: Oracle)
    requires !DriveGuard(req) || !o.authorized
    ensures Execute(req, o).calls.send.None? && Execute(req, o).calls.update.None?
    ensures Execute(req, o).message == req.message
  {
  }

  /** A full run in which every collaborator succeeds, for an archive named
      `base` + ".zip" and no folder: the upload carries the plain name and no
      parent, the message gets the link to the new id, and the rename puts the
      formatted sent time in front of ".zip". The stem may
      hold dots but no '/' and no ".zip". */
  lemma ReleaseScenario(base: string, description: string, secret: string, login: string, password: string,
                        friend: string, message: string, id: string, stamp: string, logStamp: string,
                        sentTime: Long, now: Long)
    requires '/' !in base && !Occurs(base, Extension)
    requires description != [] && secret != [] && login != [] && password != [] && friend != []
    requires id != [] && sentTime != Sentinel
    ensures var name := base + Extension;
      var req := Request(Some(name), Some(description), Some(secret), Some(""),
                         Some(login), Some(password), Some(friend), Some(message));
      var o := Oracle(true, now, Some(RemoteFile(Some(id))), Delivered(sentTime), stamp, logStamp);
      var meta := UploadMetadata(name, description, Some(""), now);
      var patch := UpdatePatch(name, stamp, sentTime);
      var out := Execute(req, o);
      && out.calls == Calls(
           Some(GetDriveService(secret)),
           Some(CreateFile(meta, name)),
           Some(SendMessage(login, password, friend, Some(message + DownloadLink(id)))),
           Some(UpdateFile(Some(id), patch)))
      && out.logs == [UploadLog(name, id), SentLog(logStamp)]
      && meta.name == Some(name) && meta.parents.None?
      && patch.name == Some(base + stamp + Extension)
  {
    var name := base + Extension;
    var req := Request(Some(name), Some(description), Some(secret), Some(""),
                       Some(login), Some(password), Some(friend), Some(message));
    var o := Oracle(true, now, Some(RemoteFile(Some(id))), Delivered(sentTime), stamp, logStamp);
    assert Uploaded(req, o) && NotifyGuard(req);
    assert '/' !in name;
    BaseNameOfPlainName(name);
    RenamedNameOfPlainArchive(base, stamp);
  }

  /** The value the `k`-th field receives from `args`. */
  function Given(args: seq<string>, k: nat): Option<string> {
    if k < |args| then Some(args[k]) else None
  }

  /** `main`'s argument loop: the `k`-th argument fills the `k`-th attribute,
      missing arguments leave attributes null, extra arguments are ignored. */
  method FromArgs(args: seq<string>) returns (req: Request)
    ensures forall k :: 0 <= k < ArgumentCount ==> req.Field(k) == Given(args, k)
  {
    var fileName, description, clientSecretFile, folderId: Option<string> := None, None, None, None;
    var login, password, userName, message: Option<string> := None, None, None, None;
    var i := 0;
    while i < |args|
      invariant 0 <= i <= |args|
      invariant fileName == Given(args[..i], 0)
      invariant description == Given(args[..i], 1)
      invariant clientSecretFile == Given(args[..i], 2)
      invariant folderId == Given(args[..i], 3)
      invariant login == Given(args[..i], 4)
      invariant password == Given(args[..i], 5)
      invariant userName == Given(args[..i], 6)
      invariant message == Given(args[..i], 7)
    {
      match i {
        case 0 => fileName := Some(args[i]);
        case 1 => description := Some(args[i]);
        case 2 => clientSecretFile := Some(args[i]);
        case 3 => folderId := Some(args[i]);
        case 4 => login := Some(args[i]);
        case 5 => password := Some(args[i]);
        case 6 => userName := Some(args[i]);
        case 7 => message := Some(args[i]);
        case _ =>
      }
      i := i + 1;
    }
    assert args[..i] == args;
    req := Request(fileName, description, clientSecretFile, folderId, login, password, userName, message);
  }

  /** `main`: map the arguments, then run. */
  method CommandLine(args: seq<string>, o: Oracle) returns (out: Outcome)
    ensures exists req: Request :: (forall k :: 0 <= k < ArgumentCount ==> req.Field(k) == Given(args, k))
                                   && out == Execute(req, o)
    ensures |args| < 3 ==> out.calls.Trace() == [] && out.logs == []
  {
    var req := FromArgs(args);
    assert req.Field(2) == Given(args, 2);
    out := Execute(req, o);
  }
}
