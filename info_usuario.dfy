/**
 * The profile header: avatar upload, name editing and logout. The pure parts are the
 * input checks and the file-name arithmetic; class `ProfileHeader` holds the
 * component's React state (`showDropdown`, `uploading`), the value of its file input,
 * the signed-in user, the browser's two storages, and records every request it sends
 * to the backend in `requests`. Dialog answers, backend results and clock readings
 * are parameters of the handlers.
 */
module InfoUsuario {
  import opened Wrappers
  import opened JsString

  /** A row of the `profiles` table. */
  datatype Profile = Profile(id: string, fullName: string, email: string, avatarUrl: Option<string>)

  /** The file picked in the file input. */
  datatype SelectedFile = SelectedFile(name: string, mimeType: string, size: nat)

  // ---------------------------------------------------------------------------
  // Avatar file checks
  // ---------------------------------------------------------------------------

  const AllowedTypes: seq<string> := ["image/jpeg", "image/png"]

  /** 1 MB, the largest avatar accepted. */
  const MaxAvatarBytes: nat := 1024 * 1024

  datatype FileError = UnsupportedType | TooLarge

  function FileErrorMessage(e: FileError): string {
    match e
    case UnsupportedType => "Apenas imagens JPG e PNG são permitidas"
    case TooLarge => "A imagem deve ter no máximo 1MB"
  }

  /** The two checks, type first: a file is accepted exactly when it is a JPEG or PNG
      of at most 1 MB, and a file that fails both reports its type. */
  function ValidateFile(f: SelectedFile): (r: Option<FileError>)
    ensures r.None? <==> f.mimeType in AllowedTypes && f.size <= MaxAvatarBytes
    ensures r == Some(UnsupportedType) <==> f.mimeType !in AllowedTypes
    ensures r == Some(TooLarge) <==> f.mimeType in AllowedTypes && f.size > MaxAvatarBytes
  {
    if f.mimeType !in AllowedTypes then Some(UnsupportedType)
    else if f.size > MaxAvatarBytes then Some(TooLarge)
    else None
  }

  // ---------------------------------------------------------------------------
  // Name checks
  // ---------------------------------------------------------------------------

  const EmptyNameMessage: string := "O nome não pode ficar vazio"
  const ShortNameMessage: string := "O nome deve ter pelo menos 3 caracteres"
  const LongNameMessage: string := "O nome deve ter no máximo 50 caracteres"

  /** The name dialog's `inputValidator`: the message shown for a rejected name, in
      the order empty, too short, too long; `None` for a name of 3 to 50 characters. */
  function NameError(value: string): (r: Option<string>)
    ensures r.None? <==> 3 <= |value| <= 50
    ensures r == Some(EmptyNameMessage) <==> value == ""
    ensures r == Some(ShortNameMessage) <==> 0 < |value| < 3
    ensures r == Some(LongNameMessage) <==> |value| > 50
  {
    if value == "" then Some(EmptyNameMessage)
    else if |value| < 3 then Some(ShortNameMessage)
    else if |value| > 50 then Some(LongNameMessage)
    else None
  }

  /** The name the profile is renamed to, or `None` when `handleEditName` returns early:
      the dialog was not confirmed, the value is missing or empty, or it equals the
      current full name (`currentName` is `None` when nobody is signed in). */
  function RenameTarget(isConfirmed: bool, value: Option<string>, currentName: Option<string>): (r: Option<string>)
    ensures r.Some? <==> isConfirmed && value.Some? && value.value != "" && Some(value.value) != currentName
    ensures r.Some? ==> r == value
  {
    if !isConfirmed || value.None? || value.value == "" || Some(value.value) == currentName then None
    else value
  }

  /** A confirmed dialog has passed its validator, so the only early return left is
      an unchanged name. */
  lemma ValidatedNameIsRenamedUnlessUnchanged(value: string, currentName: Option<string>)
    requires NameError(value).None?
    ensures RenameTarget(true, Some(value), currentName) == (if Some(value) == currentName then None else Some(value))
  {
  }

  // ---------------------------------------------------------------------------
  // Storage file names
  // ---------------------------------------------------------------------------

  /** `file.name.split('.').pop()`: the text after the last dot, or the whole name
      when it has none. */
  function FileExtension(fileName: string): (ext: string)
    ensures '.' !in ext
    ensures '.' !in fileName ==> ext == fileName
    ensures '.' in fileName ==> |ext| < |fileName| && fileName == fileName[..|fileName| - |ext| - 1] + "." + ext
  {
    var ext := LastSplitPart(fileName, '.');
    assert '.' in fileName ==> |ext| < |fileName|;
    assert |ext| < |fileName| ==> fileName == fileName[..|fileName| - |ext| - 1] + "." + fileName[|fileName| - |ext|..];
    ext
  }

  /** `${user?.id}`: the user's id, or "undefined" when nobody is signed in. */
  function UserIdText(user: Option<Profile>): string {
    if user.Some? then user.value.id else "undefined"
  }

  /** `${id}-${now}.${ext}`: the storage name of an uploaded avatar. It starts with the
      user's id, its extension is `ext` when `ext` holds no dot, and it holds no `/` or `?`
      when neither the id nor `ext` does. */
  function NewFileName(id: string, now: nat, ext: string): (r: string)
    ensures |id| < |r| && r[..|id|] == id
    ensures '.' !in ext ==> FileExtension(r) == ext
    ensures '/' !in id && '?' !in id && '/' !in ext && '?' !in ext ==> '/' !in r && '?' !in r
  {
    var digits := DecimalString(now);
    var r := id + "-" + digits + "." + ext;
    assert r == (id + "-" + digits) + ['.'] + ext;
    assert r[..|id|] == id;
    assert '.' !in ext ==> FileExtension(r) == ext by {
      if '.' !in ext { LastSplitPartAfterSeparator(id + "-" + digits, '.', ext); }
    }
    DigitsHoldNoSeparator(digits);
    r
  }

  /** `${publicUrl}?t=${now}`: the avatar URL stored in the profile. It starts with the
      public URL, and cutting it at its first `?` gives that URL back when it has no query. */
  function CdnUrl(publicUrl: string, now: nat): (r: string)
    ensures |publicUrl| < |r| && r[..|publicUrl|] == publicUrl
    ensures '?' !in publicUrl ==> FirstSplitPart(r, '?') == publicUrl
  {
    var r := publicUrl + "?t=" + DecimalString(now);
    assert r == publicUrl + ['?'] + ("t=" + DecimalString(now));
    assert '?' !in publicUrl ==> FirstSplitPart(r, '?') == publicUrl by {
      if '?' !in publicUrl { FirstSplitPartBeforeSeparator(publicUrl, '?', "t=" + DecimalString(now)); }
    }
    r
  }

  /** Two avatar URLs for the same public URL are equal only when they were made at the
      same clock reading: the `t` query carries the reading. */
  lemma CdnUrlDeterminesTime(publicUrl: string, n1: nat, n2: nat)
    requires CdnUrl(publicUrl, n1) == CdnUrl(publicUrl, n2)
    ensures n1 == n2
  {
    var d1, d2 := DecimalString(n1), DecimalString(n2);
    var r1, r2 := CdnUrl(publicUrl, n1), CdnUrl(publicUrl, n2);
    assert r1 == publicUrl + "?t=" + d1 && r2 == publicUrl + "?t=" + d2;
    assert r1[|publicUrl| + 3..] == d1;
    assert r2[|publicUrl| + 3..] == d2;
    DecimalRoundTrip(n1);
    DecimalRoundTrip(n2);
  }

  /** `url.split('/').pop()?.split('?')[0]`: the last path segment, without its query. */
  function OldFileName(url: string): (r: string)
    ensures '/' !in r && '?' !in r
  {
    FirstSplitPart(LastSplitPart(url, '/'), '?')
  }

  /** The stored name keeps the extension of the picked file. */
  /** Two stored names for the same id and extension are equal only when they were made
      at the same clock reading: the name carries the reading. */
  lemma NewFileNameDeterminesTime(id: string, n1: nat, n2: nat, ext: string)
    requires NewFileName(id, n1, ext) == NewFileName(id, n2, ext)
    ensures n1 == n2
  {
    var d1, d2 := DecimalString(n1), DecimalString(n2);
    var r1, r2 := NewFileName(id, n1, ext), NewFileName(id, n2, ext);
    assert |d1| == |d2| by { assert |r1| == |id| + 1 + |d1| + 1 + |ext| && |r2| == |id| + 1 + |d2| + 1 + |ext|; }
    assert r1[|id| + 1..|id| + 1 + |d1|] == d1;
    assert r2[|id| + 1..|id| + 1 + |d2|] == d2;
    DecimalRoundTrip(n1);
    DecimalRoundTrip(n2);
  }

  lemma DigitsHoldNoSeparator(digits: string)
    requires IsDecimal(digits)
    ensures '/' !in digits && '?' !in digits
  {
    forall i | 0 <= i < |digits| ensures digits[i] != '/' && digits[i] != '?' {
      assert IsDigit(digits[i]);
    }
  }

  /** Reading the file name back out of a public URL `base/name` with the cache-busting
      query appended gives `name`, for a name without `/` or `?`. */
  lemma OldFileNameOfCdnUrl(base: string, name: string, now: nat)
    requires '/' !in name && '?' !in name
    ensures OldFileName(CdnUrl(base + "/" + name, now)) == name
  {
    var digits := DecimalString(now);
    var tail := name + "?t=" + digits;
    DigitsHoldNoSeparator(digits);
    assert CdnUrl(base + "/" + name, now) == base + ['/'] + tail;
    LastSplitPartAfterSeparator(base, '/', tail);
    assert tail == name + ['?'] + ("t=" + digits);
    FirstSplitPartBeforeSeparator(name, '?', "t=" + digits);
  }

  /** A name without `/` or `?` gives an extension without them. */
  lemma ExtensionHoldsNoSeparator(fileName: string)
    requires '/' !in fileName && '?' !in fileName
    ensures var ext := FileExtension(fileName); '/' !in ext && '?' !in ext
  {
    var ext := LastSplitPart(fileName, '.');
    forall i | 0 <= i < |ext| ensures ext[i] != '/' && ext[i] != '?' {
      assert ext[i] == fileName[|fileName| - |ext| + i];
    }
  }

  /** The avatar uploaded for a user whose id holds no `/` or `?`, from a picked file whose
      extension holds neither, is the file the next upload removes. */
  lemma UploadedAvatarIsNextRemoved(id: string, fileName: string, nowName: nat, base: string, nowUrl: nat)
    requires '/' !in id && '?' !in id
    requires '/' !in FileExtension(fileName) && '?' !in FileExtension(fileName)
    ensures var stored := NewFileName(id, nowName, FileExtension(fileName));
            OldFileName(CdnUrl(base + "/" + stored, nowUrl)) == stored
  {
    var stored := NewFileName(id, nowName, FileExtension(fileName));
    OldFileNameOfCdnUrl(base, stored, nowUrl);
  }

  // ---------------------------------------------------------------------------
  // Avatar
  // ---------------------------------------------------------------------------

  /** What the avatar shows: the picture, or the name's initial. */
  datatype AvatarFace = Picture(src: string) | Initial(letter: string)

  /** `name.charAt(0).toUpperCase()`: empty for an empty name, otherwise the upper-case
      form of the first character, and already upper case. */
  function GetInitial(name: string): (r: string)
    ensures r == [] <==> name == []
    ensures name != [] ==> r == UpperChar(name[0])
    ensures name != [] && 'a' <= name[0] <= 'z' ==> r == [(name[0] as int - 32) as char]
    ensures ToUpperCase(r) == r
  {
    var first := CharAt(name, 0);
    ToUpperCaseIdempotent(first);
    assert name != [] ==> ToUpperCase(first) == UpperChar(name[0]) by {
      if name != [] { ToUpperCaseOfChar(name[0]); }
    }
    ToUpperCase(first)
  }

  /** The avatar shows the picture for a non-empty URL, the initial otherwise. */
  function Face(url: Option<string>, name: string): (r: AvatarFace)
    ensures r.Picture? <==> url.Some? && url.value != ""
    ensures r.Picture? ==> r.src == url.value
    ensures r.Initial? ==> r.letter == GetInitial(name)
  {
    if url.Some? && url.value != "" then Picture(url.value) else Initial(GetInitial(name))
  }

  // ---------------------------------------------------------------------------
  // Logout
  // ---------------------------------------------------------------------------

  /** The keys the backend client keeps its session under. */
  predicate IsSessionKey(key: string) {
    StartsWith(key, "sb-")
  }

  /** The storage with every `sb-` key removed and everything else kept. */
  function WithoutSessionKeys(items: map<string, string>): (r: map<string, string>)
    ensures forall k :: k in r <==> k in items && !IsSessionKey(k)
    ensures forall k | k in r :: r[k] == items[k]
  {
    map k | k in items && !IsSessionKey(k) :: items[k]
  }

  /** A browser storage (`localStorage` or `sessionStorage`). */
  class WebStorage {
    var items: map<string, string>

    constructor (items: map<string, string>)
      ensures this.items == items
    {
      this.items := items;
    }

    method RemoveItem(key: string)
      modifies this
      ensures items == old(items) - {key}
    {
      items := items - {key};
    }

    method Clear()
      modifies this
      ensures items == map[]
    {
      items := map[];
    }
  }

  // ---------------------------------------------------------------------------
  // The component
  // ---------------------------------------------------------------------------

  /** A request to the backend. `userId` is `None` when nobody is signed in. */
  datatype Request =
    | RemoveAvatar(path: string)
    | UploadAvatar(path: string)
    | SetAvatarUrl(userId: Option<string>, url: string)
    | FetchProfile(userId: Option<string>)
    | SetFullName(userId: Option<string>, name: string)
    | SignOut

  /** A value a handler's `catch` block receives: an `Error` object or anything else. */
  datatype Thrown = ErrorObject(message: string) | OtherValue

  datatype Toast = SuccessToast(text: string) | ErrorToast(text: string)

  /** `error instanceof Error ? error.message : fallback`. */
  function ThrownText(t: Thrown, fallback: string): string {
    if t.ErrorObject? then t.message else fallback
  }

  function UserId(user: Option<Profile>): Option<string> {
    if user.Some? then Some(user.value.id) else None
  }

  /** The name of the stored avatar the upload removes first: for a non-empty avatar
      URL, its last segment without query, when that is not empty. */
  function OldAvatarName(user: Option<Profile>): (r: Option<string>)
    ensures r.Some? ==> r.value != "" && '/' !in r.value && '?' !in r.value
    ensures r.Some? ==> user.Some? && user.value.avatarUrl.Some? && r.value == OldFileName(user.value.avatarUrl.value)
    ensures (user.Some? && user.value.avatarUrl.Some? && user.value.avatarUrl.value != ""
             && OldFileName(user.value.avatarUrl.value) != "")
            ==> r == Some(OldFileName(user.value.avatarUrl.value))
  {
    if user.Some? && user.value.avatarUrl.Some? && user.value.avatarUrl.value != ""
       && OldFileName(user.value.avatarUrl.value) != ""
    then Some(OldFileName(user.value.avatarUrl.value))
    else None
  }

  /** The requests of one upload, in order: the removal of the old avatar `oldName`
      (when there is one), the upload under `stored`, then, unless the upload failed,
      the profile's new avatar URL, and, unless that failed too, the profile reload. */
  function UploadRequests(oldName: Option<string>, stored: string, userId: Option<string>, uploadFailed: bool,
                          cdnUrl: string, updateFailed: bool): (r: seq<Request>)
    ensures |r| == (if oldName.Some? then 1 else 0) + 1 + (if uploadFailed then 0 else 1)
                   + (if uploadFailed || updateFailed then 0 else 1)
    ensures r[0] == (if oldName.Some? then RemoveAvatar(oldName.value) else UploadAvatar(stored))
    ensures oldName.Some? ==> r[1] == UploadAvatar(stored)
    ensures SetAvatarUrl(userId, cdnUrl) in r <==> !uploadFailed
    ensures FetchProfile(userId) in r <==> !uploadFailed && !updateFailed
    ensures !uploadFailed && !updateFailed ==> r[|r| - 1] == FetchProfile(userId)
    ensures !uploadFailed ==> r[|r| - (if updateFailed then 1 else 2)] == SetAvatarUrl(userId, cdnUrl)
  {
    (if oldName.Some? then [RemoveAvatar(oldName.value)] else [])
    + [UploadAvatar(stored)]
    + (if uploadFailed then [] else [SetAvatarUrl(userId, cdnUrl)])
    + (if uploadFailed || updateFailed then [] else [FetchProfile(userId)])
  }

  /** The storage name of the avatar `user` uploads from a file called `pickedName`. */
  function StoredName(user: Option<Profile>, pickedName: string, nowName: nat): (r: string)
    ensures |UserIdText(user)| < |r| && r[..|UserIdText(user)|] == UserIdText(user)
    ensures FileExtension(r) == FileExtension(pickedName)
  {
    NewFileName(UserIdText(user), nowName, FileExtension(pickedName))
  }

  /** The toast that ends an upload: the first backend error, or success. */
  function UploadToast(uploadError: Option<Thrown>, updateError: Option<Thrown>): (r: Toast)
    ensures r.SuccessToast? <==> uploadError.None? && updateError.None?
    ensures r.SuccessToast? ==> r.text == "Sua foto foi atualizada"
    ensures uploadError.Some? ==> r == ErrorToast(ThrownText(uploadError.value, "Erro ao atualizar foto"))
    ensures uploadError.None? && updateError.Some? ==> r == ErrorToast(ThrownText(updateError.value, "Erro ao atualizar foto"))
  {
    if uploadError.Some? then ErrorToast(ThrownText(uploadError.value, "Erro ao atualizar foto"))
    else if updateError.Some? then ErrorToast(ThrownText(updateError.value, "Erro ao atualizar foto"))
    else SuccessToast("Sua foto foi atualizada")
  }

  class ProfileHeader {
    var user: Option<Profile>
    var showDropdown: bool
    var uploading: bool
    /** The value of the hidden file input. */
    var fileInputValue: string
    /** Where `window.location.href` was sent, if anywhere. */
    var location: Option<string>
    /** Every request sent to the backend, oldest first. */
    var requests: seq<Request>
    const localStorage: WebStorage
    const sessionStorage: WebStorage

    ghost predicate Valid()
      reads this
    {
      localStorage != sessionStorage
    }

    constructor (user: Option<Profile>, local: map<string, string>, session: map<string, string>)
      ensures Valid()
      ensures this.user == user && !showDropdown && !uploading && fileInputValue == ""
      ensures location.None? && requests == []
      ensures localStorage.items == local && sessionStorage.items == session
      ensures fresh(localStorage) && fresh(sessionStorage)
    {
      this.user := user;
      showDropdown := false;
      uploading := false;
      fileInputValue := "";
      location := None;
      requests := [];
      localStorage := new WebStorage(local);
      sessionStorage := new WebStorage(session);
    }

    /** The arrow button flips the dropdown. */
    method ToggleDropdown()
      requires Valid()
      modifies this
      ensures Valid()
      ensures showDropdown == !old(showDropdown)
      ensures user == old(user) && uploading == old(uploading) && fileInputValue == old(fileInputValue)
      ensures location == old(location) && requests == old(requests)
    {
      showDropdown := !showDropdown;
    }

    /**
     * `handleFileChange`. `file` is the picked file, if any. `loadingDismissed` says
     * whether the awaited loading dialog has been closed; while it is open the
     * handler has not finished (`finished` is false) and `uploading` stays set.
     * `nowName` and `nowUrl` are the two clock readings, `publicUrl` is the URL the
     * backend gives for the stored name, and the rest are the backend's answers.
     */
    method HandleFileChange(file: Option<SelectedFile>, loadingDismissed: bool, nowName: nat,
                            uploadError: Option<Thrown>, publicUrl: string, nowUrl: nat,
                            updateError: Option<Thrown>, fetched: Option<Profile>)
      returns (finished: bool, toast: Option<Toast>)
      requires Valid()
      modifies this
      ensures Valid()
      ensures var valid := file.Some? && ValidateFile(file.value).None?;
              finished == (!valid || loadingDismissed)
      // the `finally` block: however the handler ends, the flag and the input are reset
      ensures finished ==> !uploading && fileInputValue == ""
      ensures !finished ==> uploading && fileInputValue == old(fileInputValue)
      ensures file.None? ==> toast.None? && requests == old(requests) && user == old(user)
      ensures file.Some? && ValidateFile(file.value).Some? ==>
                && toast == Some(ErrorToast(FileErrorMessage(ValidateFile(file.value).value)))
                && requests == old(requests) && user == old(user)
      ensures !finished ==> toast.None? && requests == old(requests) && user == old(user)
      ensures file.Some? && ValidateFile(file.value).None? && loadingDismissed ==>
                && requests == old(requests) + UploadRequests(OldAvatarName(old(user)), StoredName(old(user), file.value.name, nowName),
                                                              UserId(old(user)), uploadError.Some?,
                                                              CdnUrl(publicUrl, nowUrl), updateError.Some?)
                && toast == Some(UploadToast(uploadError, updateError))
                && user == (if uploadError.None? && updateError.None? && fetched.Some? then fetched else old(user))
      ensures showDropdown == old(showDropdown) && location == old(location)
    {
      finished := true;
      toast := None;
      if file.None? {
        // `return` inside `try`: only the `finally` block runs
      } else {
        var err := ValidateFile(file.value);
        if err.Some? {
          toast := Some(ErrorToast(FileErrorMessage(err.value)));
        } else {
          uploading := true;
          if !loadingDismissed {
            finished := false;
          } else {
            // the stored name `${user?.id}-${Date.now()}.${fileExt}`, the old name taken from
            // `avatar_url`, and the cache-busted URL `${publicUrl}?t=${Date.now()}`
            var fileName := StoredName(user, file.value.name, nowName);
            var t := Upload(OldAvatarName(user), fileName, UserId(user), uploadError, CdnUrl(publicUrl, nowUrl),
                            updateError, fetched);
            toast := Some(t);
          }
        }
      }
      if finished {
        uploading := false;
        fileInputValue := "";
      }
    }

    /** The part of `handleFileChange` after the loading dialog, for the old avatar
        `oldName`, the new storage name `fileName` and the user's id `userId`: remove
        the old avatar, upload the new one, store its URL in the profile and reload the
        profile; the first backend error ends it with an error toast. */
    method Upload(oldName: Option<string>, fileName: string, userId: Option<string>,
                  uploadError: Option<Thrown>, cdnUrl: string, updateError: Option<Thrown>, fetched: Option<Profile>)
      returns (toast: Toast)
      requires Valid()
      modifies this
      ensures Valid()
      ensures requests == old(requests) + UploadRequests(oldName, fileName, userId, uploadError.Some?, cdnUrl, updateError.Some?)
      ensures toast == UploadToast(uploadError, updateError)
      ensures user == (if uploadError.None? && updateError.None? && fetched.Some? then fetched else old(user))
      ensures showDropdown == old(showDropdown) && location == old(location)
      ensures uploading == old(uploading) && fileInputValue == old(fileInputValue)
    {
      ghost var before := requests;
      var removal := if oldName.Some? then [RemoveAvatar(oldName.value)] else [];
      requests := requests + removal + [UploadAvatar(fileName)];
      if uploadError.Some? {
        toast := ErrorToast(ThrownText(uploadError.value, "Erro ao atualizar foto"));
        assert requests == before + (removal + [UploadAvatar(fileName)]);
      } else {
        requests := requests + [SetAvatarUrl(userId, cdnUrl)];
        if updateError.Some? {
          toast := ErrorToast(ThrownText(updateError.value, "Erro ao atualizar foto"));
          assert requests == before + (removal + [UploadAvatar(fileName)] + [SetAvatarUrl(userId, cdnUrl)]);
        } else {
          requests := requests + [FetchProfile(userId)];
          assert requests == before + (removal + [UploadAvatar(fileName)] + [SetAvatarUrl(userId, cdnUrl)]
                                       + [FetchProfile(userId)]);
          if fetched.Some? {
            user := fetched;
          }
          toast := SuccessToast("Sua foto foi atualizada");
        }
      }
    }

    /**
     * `handleEditName`, once the dialog has answered with `isConfirmed` and `value`.
     * `updateError` and `updated` are the backend's answers to the rename.
     */
    method HandleEditName(isConfirmed: bool, value: Option<string>, updateError: Option<Thrown>, updated: Option<Profile>)
      returns (toast: Option<Toast>)
      requires Valid()
      modifies this
      ensures Valid()
      ensures var target := RenameTarget(isConfirmed, value, if old(user).Some? then Some(old(user).value.fullName) else None);
              && (target.None? ==>
                    toast.None? && requests == old(requests) && user == old(user) && showDropdown == old(showDropdown))
              && (target.Some? ==> requests == old(requests) + [SetFullName(UserId(old(user)), target.value)])
              && (target.Some? && updateError.Some? ==>
                    && toast == Some(ErrorToast(ThrownText(updateError.value, "Erro ao atualizar nome")))
                    && user == old(user) && showDropdown == old(showDropdown))
              && (target.Some? && updateError.None? && updated.None? ==>
                    toast.None? && user == old(user) && showDropdown == old(showDropdown))
              && (target.Some? && updateError.None? && updated.Some? ==>
                    toast == Some(SuccessToast("Seu nome foi atualizado")) && user == updated && !showDropdown)
      ensures uploading == old(uploading) && fileInputValue == old(fileInputValue) && location == old(location)
    {
      toast := None;
      var currentName := if user.Some? then Some(user.value.fullName) else None;
      var target := RenameTarget(isConfirmed, value, currentName);
      if target.Some? {
        requests := requests + [SetFullName(UserId(user), target.value)];
        if updateError.Some? {
          toast := Some(ErrorToast(ThrownText(updateError.value, "Erro ao atualizar nome")));
        } else if updated.Some? {
          user := updated;
          showDropdown := false;
          toast := Some(SuccessToast("Seu nome foi atualizado"));
        }
      }
    }

    /**
     * `handleLogout`, once the dialog has answered `isConfirmed`: every `sb-` key of
     * the local storage is removed, key by key, the session storage is cleared, the
     * backend is told to sign out and the page goes to "/".
     */
    method HandleLogout(isConfirmed: bool)
      requires Valid()
      modifies this, localStorage, sessionStorage
      ensures Valid()
      ensures isConfirmed ==>
                && localStorage.items == WithoutSessionKeys(old(localStorage.items))
                && sessionStorage.items == map[]
                && requests == old(requests) + [SignOut]
                && location == Some("/")
      ensures !isConfirmed ==>
                && localStorage.items == old(localStorage.items)
                && sessionStorage.items == old(sessionStorage.items)
                && requests == old(requests) && location == old(location)
      ensures user == old(user) && showDropdown == old(showDropdown)
      ensures uploading == old(uploading) && fileInputValue == old(fileInputValue)
    {
      if isConfirmed {
        ghost var before := localStorage.items;
        var pending := localStorage.items.Keys;
        while pending != {}
          invariant pending <= before.Keys
          invariant localStorage.items == map k | k in before && (k in pending || !IsSessionKey(k)) :: before[k]
          modifies localStorage
          decreases pending
        {
          var key :| key in pending;
          if IsSessionKey(key) {
            localStorage.RemoveItem(key);
          }
          pending := pending - {key};
        }
        sessionStorage.Clear();
        requests := requests + [SignOut];
        location := Some("/");
      }
    }
  }
}
