/**
 * The stories page (src/app/stories/page.tsx): the file-extension rule and storage path of
 * an uploaded picture, and the records the page writes when a story is posted, liked or
 * reposted.
 */
module StoriesPage {
  import opened Wrappers
  import opened Text

  // ---------------------------------------------------------------------------------------
  // File extensions and storage paths

  /** `name.lastIndexOf(".")`: the position of the last dot, or -1. */
  function LastDot(name: string): (r: int)
    ensures -1 <= r < |name|
    ensures r == -1 <==> '.' !in name
    ensures r >= 0 ==> name[r] == '.' && '.' !in name[r + 1..]
  {
    if name == "" then -1
    else if name[|name| - 1] == '.' then |name| - 1
    else
      var r := LastDot(name[..|name| - 1]);
      LastCharSplit(name, r + 1);
      r
  }

  /** The characters of `name` from `k` on are those of all but its last, then the last. */
  lemma LastCharSplit(name: string, k: nat)
    requires name != "" && k <= |name| - 1
    ensures name[k..] == name[..|name| - 1][k..] + [name[|name| - 1]]
    ensures forall c :: c in name <==> c in name[..|name| - 1] || c == name[|name| - 1]
  {
    assert name == name[..|name| - 1] + [name[|name| - 1]];
  }

  /** An extension: a dot followed by no further dot. */
  predicate IsExtension(e: string) {
    e != "" && e[0] == '.' && '.' !in e[1..]
  }

  /** `extFromName`: the name from its last dot on, or "" when it has no dot. */
  function ExtFromName(name: string): (ext: string)
    ensures '.' !in name ==> ext == ""
    ensures '.' in name ==> IsExtension(ext) && |ext| <= |name| && name == name[..|name| - |ext|] + ext
  {
    var dot := LastDot(name);
    if dot >= 0 then name[dot..] else ""
  }

  /** Whatever comes before it, an extension at the end of a name is the one found. */
  lemma {:induction false} ExtOfJoined(prefix: string, ext: string)
    requires IsExtension(ext)
    ensures ExtFromName(prefix + ext) == ext
    decreases |ext|
  {
    var name := prefix + ext;
    if |ext| == 1 {
      assert name[|name| - 1] == '.';
    } else {
      var shorter := ext[..|ext| - 1];
      assert '.' !in shorter[1..] by {
        assert shorter[1..] == ext[1..][..|ext| - 2];
      }
      assert name[..|name| - 1] == prefix + shorter;
      assert name[|name| - 1] == ext[1..][|ext| - 2];
      ExtOfJoined(prefix, shorter);
    }
  }

  /** Taking the extension of an extension changes nothing. */
  lemma ExtIdempotent(name: string)
    ensures ExtFromName(ExtFromName(name)) == ExtFromName(name)
  {
    var ext := ExtFromName(name);
    if ext != "" {
      ExtOfJoined("", ext);
      assert "" + ext == ext;
    }
  }

  const DefaultExt: string := ".jpg"

  /** The extension the stored picture gets: the file's own, or ".jpg" when it has none. */
  function StoredExt(fileName: string): (ext: string)
    ensures IsExtension(ext)
  {
    var own := ExtFromName(fileName);
    if own == "" then DefaultExt else own
  }

  /** `stories/<user id>/<milliseconds><extension>`. */
  function StoragePath(userId: string, now: nat, fileName: string): (path: string)
    ensures "stories/" + userId + "/" <= path
  {
    "stories/" + userId + "/" + NatToString(now) + StoredExt(fileName)
  }

  /** The stored picture keeps the file's extension, or gets ".jpg" when the file has none. */
  lemma PathKeepsExtension(userId: string, now: nat, fileName: string)
    ensures ExtFromName(StoragePath(userId, now, fileName)) ==
              if '.' in fileName then ExtFromName(fileName) else DefaultExt
  {
    var prefix := "stories/" + userId + "/" + NatToString(now);
    assert StoragePath(userId, now, fileName) == prefix + StoredExt(fileName);
    ExtOfJoined(prefix, StoredExt(fileName));
  }

  /** `!userId`: no user, or an empty id. */
  predicate SignedIn(userId: Option<string>) {
    userId.Some? && userId.value != ""
  }

  /**
   * `uploadToStorage`: the storage path of the uploaded picture, or nothing without a file,
   * without a signed-in user, or when the storage reported `uploadError`.
   */
  function Upload(fileName: Option<string>, userId: Option<string>, now: nat,
                  uploadError: Option<string>): (path: Option<string>)
    ensures path.Some? <==> fileName.Some? && SignedIn(userId) && uploadError.None?
    ensures path.Some? ==> path.value == StoragePath(userId.value, now, fileName.value)
  {
    if fileName.None? || !SignedIn(userId) then None
    else if uploadError.Some? then None
    else Some(StoragePath(userId.value, now, fileName.value))
  }

  // ---------------------------------------------------------------------------------------
  // Records

  /** A row of the `stories` table as the page reads it. */
  datatype Story = Story(
    id: int,
    userId: string,
    title: string,
    subject: Option<string>,
    imagePath: Option<string>,
    likes: Option<int>,
    originalStoryId: Option<int>,
    createdAt: string)

  /** The fields the page inserts into `stories`; the others take the table's defaults. */
  datatype NewStory = NewStory(
    userId: string,
    title: string,
    subject: Option<string>,
    imagePath: Option<string>,
    originalStoryId: Option<int>)

  /** `subject.trim() || null`. */
  function SubjectField(subject: string): (r: Option<string>)
    ensures r.None? <==> AllSpace(subject)
    ensures r.Some? ==> r.value != "" && IsTrimmed(r.value)
    ensures r.Some? ==> r.value == Trim(subject)
  {
    TrimEmptyIff(subject);
    var t := Trim(subject);
    if t == "" then None else Some(t)
  }

  /** What posting a story comes to. */
  datatype Posting =
    | MustSignIn
    | UploadFailed(alert: string)
    | Insert(row: NewStory)

  /**
   * `createStory`: without a signed-in user nothing is written; with a picture whose upload
   * failed nothing is inserted; otherwise the trimmed title, the subject and the picture's
   * storage path are inserted.
   */
  function CreateStory(userId: Option<string>, title: string, subject: string,
                       fileName: Option<string>, now: nat, uploadError: Option<string>): (p: Posting)
    ensures !SignedIn(userId) <==> p.MustSignIn?
    ensures p.UploadFailed? <==> SignedIn(userId) && fileName.Some? && uploadError.Some?
    ensures p.Insert? ==>
              p.row.userId == userId.value && p.row.title == Trim(title) &&
              p.row.subject == SubjectField(subject) && p.row.originalStoryId.None? &&
              (p.row.imagePath.Some? <==> fileName.Some?) &&
              (fileName.Some? ==> p.row.imagePath == Some(StoragePath(userId.value, now, fileName.value)))
  {
    if !SignedIn(userId) then MustSignIn
    else if fileName.Some? && uploadError.Some? then UploadFailed("Upload failed: " + uploadError.value)
    else
      var imagePath := if fileName.Some? then Upload(fileName, userId, now, uploadError) else None;
      Insert(NewStory(userId.value, Trim(title), SubjectField(subject), imagePath, None))
  }

  /** `likeStory`: the new like count from the one read back (`null` counts as 0). */
  function NextLikes(current: Option<int>): (next: int)
    ensures next == current.GetOr(0) + 1
    ensures current.None? ==> next == 1
  {
    (if current.Some? then current.value else 0) + 1
  }

  /** `repostStory`: a copy of the story's content under the current user, pointing back at it. */
  function Repost(userId: Option<string>, s: Story): (row: Option<NewStory>)
    ensures row.None? <==> !SignedIn(userId)
    ensures row.Some? ==>
              row.value.userId == userId.value && row.value.originalStoryId == Some(s.id) &&
              row.value.title == s.title && row.value.subject == s.subject &&
              row.value.imagePath == s.imagePath
  {
    if !SignedIn(userId) then None
    else Some(NewStory(userId.value, s.title, s.subject, s.imagePath, Some(s.id)))
  }

  /** The stored row of an inserted story, once the table has given it an id and a time. */
  function Stored(id: int, createdAt: string, row: NewStory): Story {
    Story(id, row.userId, row.title, row.subject, row.imagePath, None, row.originalStoryId, createdAt)
  }

  /**
   * Reposting a repost keeps the original content but points at the repost it was made
   * from, not at the first story: the chain is not followed.
   */
  lemma RepostOfRepost(alice: string, bob: string, s: Story, id: int, at: string)
    requires alice != "" && bob != ""
    ensures var first := Repost(Some(alice), s).value;
            var second := Repost(Some(bob), Stored(id, at, first)).value;
            second.title == s.title && second.subject == s.subject &&
            second.imagePath == s.imagePath && second.originalStoryId == Some(id)
  {
  }

  /**
   * `publicUrl`: nothing for a missing or empty path; otherwise the storage's public URL for
   * it (`url`), or nothing when that is empty.
   */
  function PublicUrl(path: Option<string>, url: string): (r: Option<string>)
    ensures path.None? ==> r.None?
    ensures r.Some? <==> path.Some? && path.value != "" && url != ""
    ensures r.Some? ==> r.value == url
  {
    if path.None? || path.value == "" then None
    else if url == "" then None
    else Some(url)
  }
}
