/**
  The Google Drive side of the publisher: the metadata record sent when the
  artifact is uploaded, the patch sent when it is renamed after the
  notification, and the fixed constants both use. The Drive calls themselves
  are collaborators; their responses are inputs.
 */
module Drive {
  import opened Wrappers
  import opened Text

  /** Mime type of every uploaded artifact. */
  const MimeType: string := "application/zip"

  /** The extension that the rename stage rewrites. */
  const Extension: string := ".zip"

  /** The zone a `DateTime` carries: `new DateTime(long)` takes the JVM's
      default offset, `new DateTime(Date, TimeZone)` the zone it is given. */
  datatype Zone = DefaultZone | Utc

  /** A Drive timestamp: milliseconds since the epoch and its zone. */
  datatype DateTime = DateTime(millis: Long, zone: Zone)

  /** The Drive `File` metadata object; an unset (null) property is `None`. */
  datatype FileMeta = FileMeta(
    name: Option<string>,
    description: Option<string>,
    mimeType: Option<string>,
    createdTime: Option<DateTime>,
    modifiedTime: Option<DateTime>,
    parents: Option<seq<string>>)

  /** `new File()`: nothing set. */
  const Unset: FileMeta := FileMeta(None, None, None, None, None, None)

  /** The file record a Drive call answers with; its id may itself be null. */
  datatype RemoteFile = RemoteFile(id: Option<string>)

  /** The id `uploadFile` and `updateFile` return: null when the call produced
      no file (it threw or answered null), the file's id otherwise. */
  function ResultId(response: Option<RemoteFile>): Option<string>
  {
    match response
    case None => None
    case Some(file) => file.id
  }

  /** The metadata `uploadFile` sends with the artifact's content. */
  function UploadMetadata(fileName: string, description: string, folderId: Option<string>, now: Long): (m: FileMeta)
    ensures m.name == Some(BaseName(fileName))
    ensures m.description == Some(description)
    ensures m.mimeType == Some(MimeType)
    ensures m.createdTime.Some? && m.createdTime == m.modifiedTime
    ensures m.modifiedTime.value == DateTime(now, DefaultZone)
    ensures m.parents.Some? <==> Present(folderId)
    ensures m.parents.Some? ==> m.parents.value == [folderId.value]
  {
    var stamp := DateTime(now, DefaultZone);
    var body := Unset.(name := Some(BaseName(fileName)), description := Some(description),
                       mimeType := Some(MimeType), createdTime := Some(stamp), modifiedTime := Some(stamp));
    if Present(folderId) then body.(parents := Some([folderId.value])) else body
  }

  /** The remote name after the notification went out: the base name of the
      local path with each ".zip" preceded by the formatted sent time. */
  function RenamedName(oldName: string, stamp: string): string {
    ReplaceAll(BaseName(oldName), Extension, stamp + Extension)
  }

  /** The rename cuts the base name at every ".zip" into pieces that hold no
      ".zip" and rejoins them with the formatted time in front of each ".zip". */
  lemma RenamedNameDecomposition(oldName: string, stamp: string)
    ensures var parts := Split(BaseName(oldName), Extension);
      && Join(parts, Extension) == BaseName(oldName)
      && RenamedName(oldName, stamp) == Join(parts, stamp + Extension)
      && forall k :: 0 <= k < |parts| ==> !Occurs(parts[k], Extension)
  {
    var base := BaseName(oldName);
    SplitJoin(base, Extension);
    SplitPartsFree(base, Extension);
    ReplaceAllIsJoin(base, Extension, stamp + Extension);
  }

  /** The rename leaves the base name as it was exactly when it holds no
      ".zip" or the formatted time is empty. */
  lemma RenamedNameUnchangedIff(oldName: string, stamp: string)
    ensures RenamedName(oldName, stamp) == BaseName(oldName)
            <==> !Occurs(BaseName(oldName), Extension) || stamp == ""
  {
    var base := BaseName(oldName);
    if stamp == "" {
      ReplaceAllIdentity(base, Extension);
      assert stamp + Extension == Extension;
    } else if Occurs(base, Extension) {
      ReplaceAllGrows(base, Extension, stamp);
    } else {
      ReplaceAllWithoutTarget(base, Extension, stamp + Extension);
    }
  }

  /** ".zip" overlaps no proper suffix of itself, so in a non-empty stem
      free of ".zip" followed by ".zip" no occurrence starts at the front. */
  lemma NoExtensionAtFront(base: string)
    requires base != [] && !Occurs(base, Extension)
    ensures (base + Extension)[..|Extension|] != Extension
  {
    var s := base + Extension;
    if |base| >= |Extension| {
      assert s[..|Extension|] == base[..|Extension|];
      assert s[..|Extension|] == Extension ==> OccursAt(base, Extension, 0);
    } else {
      assert s[..|Extension|][|base|] == '.' != Extension[|base|];
    }
  }

  /** Dropping the first character of a stem free of ".zip" keeps it free. */
  lemma FreeStemTail(base: string)
    requires base != [] && !Occurs(base, Extension)
    ensures !Occurs(base[1..], Extension)
  {
    forall i | 0 <= i <= |base[1..]|
      ensures !OccursAt(base[1..], Extension, i)
    {
      OccursInSuffix(base, Extension, 1, i);
    }
  }

  /** In a stem free of ".zip" followed by ".zip" the only occurrence is the
      final one: replacing ".zip" there rewrites the extension alone. */
  lemma {:induction false} ReplaceExtensionAfterFreeStem(base: string, rep: string)
    requires !Occurs(base, Extension)
    ensures ReplaceAll(base + Extension, Extension, rep) == base + rep
    decreases |base|
  {
    if base == [] {
      assert base + Extension == Extension + [];
      ReplaceAllHead([], Extension, rep);
      assert rep + [] == rep;
    } else {
      var s := base + Extension;
      NoExtensionAtFront(base);
      FreeStemTail(base);
      assert s[1..] == base[1..] + Extension;
      ReplaceExtensionAfterFreeStem(base[1..], rep);
      assert base + rep == [base[0]] + (base[1..] + rep);
    }
  }

  /** An archive name whose stem has no '/' and no ".zip" gets the formatted
      time right before its extension; dots in the stem (`app-1.2.zip`) stay. */
  lemma RenamedNameOfPlainArchive(base: string, stamp: string)
    requires '/' !in base && !Occurs(base, Extension)
    ensures RenamedName(base + Extension, stamp) == base + stamp + Extension
  {
    var name := base + Extension;
    assert '/' !in name;
    BaseNameOfPlainName(name);
    ReplaceExtensionAfterFreeStem(base, stamp + Extension);
  }

  /** The rename adds the formatted time once per ".zip" it finds. */
  lemma RenamedNameLength(oldName: string, stamp: string)
    ensures |RenamedName(oldName, stamp)|
            == |BaseName(oldName)| + (|Split(BaseName(oldName), Extension)| - 1) * |stamp|
  {
    ReplaceAllLength(BaseName(oldName), Extension, stamp);
  }

  /** The metadata `updateFile` sends: the new name and the sent time (in UTC). */
  function UpdatePatch(oldName: string, stamp: string, sentTime: Long): (m: FileMeta)
    ensures m.name == Some(RenamedName(oldName, stamp))
    ensures m.modifiedTime == Some(DateTime(sentTime, Utc))
    ensures m.description.None? && m.mimeType.None? && m.createdTime.None? && m.parents.None?
  {
    Unset.(name := Some(RenamedName(oldName, stamp)), modifiedTime := Some(DateTime(sentTime, Utc)))
  }

  /** How Drive applies an update body to a stored record: the properties the
      body sets replace the stored ones, the rest stay. */
  function Patched(stored: FileMeta, body: FileMeta): FileMeta {
    FileMeta(
      if body.name.Some? then body.name else stored.name,
      if body.description.Some? then body.description else stored.description,
      if body.mimeType.Some? then body.mimeType else stored.mimeType,
      if body.createdTime.Some? then body.createdTime else stored.createdTime,
      if body.modifiedTime.Some? then body.modifiedTime else stored.modifiedTime,
      if body.parents.Some? then body.parents else stored.parents)
  }

  /** The rename touches name and modified time only: an uploaded record keeps
      its description, mime type, creation time and parent folder. */
  lemma UpdateKeepsUploadedProperties(fileName: string, description: string, folderId: Option<string>,
                                       now: Long, stamp: string, sentTime: Long)
    ensures var stored := UploadMetadata(fileName, description, folderId, now);
      var after := Patched(stored, UpdatePatch(fileName, stamp, sentTime));
      && after.name == Some(RenamedName(fileName, stamp))
      && after.modifiedTime == Some(DateTime(sentTime, Utc))
      && after.description == Some(description)
      && after.mimeType == Some(MimeType)
      && after.createdTime == Some(DateTime(now, DefaultZone))
      && after.parents == stored.parents
  {
  }
}
