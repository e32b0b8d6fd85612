/**
 * The decisions `BP_Attachment_Notification` takes about an uploaded profile
 * photo: the list of allowed types shown in its error message, the error code
 * of an upload, the resize and rotation arguments of `shrink`, the too-small
 * check, and the paths and file names `crop` computes before it hands the work
 * to the image editor.
 */
module AttachmentNotification {
  import opened Wrappers
  import opened PhpBuiltins

  // ---------------------------------------------------------------------------
  // get_avatar_types

  /** The allowed types upper-cased and joined with ", ". */
  function AvatarTypes(allowed: seq<string>): string {
    Join(", ", UpperAll(allowed))
  }

  lemma UpperCharIdempotent(c: char)
    ensures UpperChar(UpperChar(c)) == UpperChar(c)
  {
  }

  lemma UpperIdempotent(s: string)
    ensures Upper(Upper(s)) == Upper(s)
  {
    forall k | 0 <= k < |s|
      ensures Upper(Upper(s))[k] == Upper(s)[k]
    {
      UpperCharIdempotent(s[k]);
    }
  }

  lemma {:induction false} UpperJoin(parts: seq<string>)
    ensures Upper(Join(", ", parts)) == Join(", ", UpperAll(parts))
    decreases |parts|
  {
    if |parts| > 1 {
      UpperJoin(parts[1..]);
      UpperConcat(parts[0] + ", ", Join(", ", parts[1..]));
      UpperConcat(parts[0], ", ");
      assert Upper(", ") == ", ";
      assert UpperAll(parts)[1..] == UpperAll(parts[1..]);
    }
  }

  /** The message lists every type in upper case: the list is its own upper-cased form. */
  lemma {:induction false} AvatarTypesUpper(allowed: seq<string>)
    ensures Upper(AvatarTypes(allowed)) == AvatarTypes(allowed)
  {
    UpperJoin(UpperAll(allowed));
    forall k | 0 <= k < |allowed|
      ensures UpperAll(UpperAll(allowed))[k] == UpperAll(allowed)[k]
    {
      UpperIdempotent(allowed[k]);
    }
    assert UpperAll(UpperAll(allowed)) == UpperAll(allowed);
  }

  /** The types keep their input order: one more allowed type is listed last. */
  lemma AvatarTypesSnoc(allowed: seq<string>, t: string)
    requires |allowed| > 0
    ensures AvatarTypes(allowed + [t]) == AvatarTypes(allowed) + ", " + Upper(t)
  {
    assert UpperAll(allowed + [t]) == UpperAll(allowed) + [Upper(t)];
    JoinSnoc(", ", UpperAll(allowed), Upper(t));
  }

  // ---------------------------------------------------------------------------
  // validate_upload

  /** The fields of an uploaded file the check reads; an `error` of 0 is no error. */
  datatype UploadedFile = UploadedFile(name: string, size: nat, mime: string, error: nat)

  const ErrorTooBig: nat := 9
  const ErrorWrongType: nat := 10

  /** `validate_upload`, with the size and type checks of the avatar settings given. */
  function ValidateUpload(file: UploadedFile, sizeOk: bool, typeOk: bool): (r: UploadedFile)
    ensures r == file.(error := r.error)
    ensures file.error != 0 ==> r == file
    ensures file.error == 0 ==>
      (r.error == ErrorTooBig <==> !sizeOk) &&
      (r.error == ErrorWrongType <==> sizeOk && !typeOk) &&
      (r.error == 0 <==> sizeOk && typeOk)
  {
    if file.error != 0 then file
    else if !sizeOk then file.(error := ErrorTooBig)
    else if !typeOk then file.(error := ErrorWrongType)
    else file
  }

  /** Validating twice changes nothing more: a flagged file is passed through. */
  lemma ValidateUploadIdempotent(file: UploadedFile, sizeOk: bool, typeOk: bool)
    ensures ValidateUpload(ValidateUpload(file, sizeOk, typeOk), sizeOk, typeOk) ==
      ValidateUpload(file, sizeOk, typeOk)
  {
  }

  // ---------------------------------------------------------------------------
  // shrink

  /** The width limit of `shrink`: the original maximum, lowered to a non-empty
      smaller available width, but never below the full avatar width. */
  function ShrinkWidthLimit(uiAvailableWidth: nat, originalMaxWidth: nat, fullWidth: nat): (w: nat)
    ensures uiAvailableWidth == 0 || uiAvailableWidth >= originalMaxWidth ==> w == originalMaxWidth
    ensures 0 < uiAvailableWidth < originalMaxWidth ==>
      w >= uiAvailableWidth && w >= fullWidth && (w == uiAvailableWidth || w == fullWidth)
  {
    if uiAvailableWidth != 0 && uiAvailableWidth < originalMaxWidth then
      (if uiAvailableWidth < fullWidth then fullWidth else uiAvailableWidth)
    else originalMaxWidth
  }

  /** The rotation that straightens an image with the given EXIF orientation. */
  function RotationAngle(orientation: int): (a: Option<int>)
    ensures a.Some? <==> orientation == 3 || orientation == 6 || orientation == 8
    ensures orientation == 3 ==> a == Some(180)
    ensures orientation == 6 ==> a == Some(-90)
    ensures orientation == 8 ==> a == Some(90)
  {
    if orientation == 3 then Some(180)
    else if orientation == 6 then Some(-90)
    else if orientation == 8 then Some(90)
    else None
  }

  /** What `get_image_data` reports of an image: its width and EXIF orientation, if known. */
  datatype ImageData = ImageData(width: Option<nat>, orientation: Option<int>)

  /** The edit arguments: a bounding box (`max_w` = `max_h`) and a rotation. */
  datatype EditArgs = EditArgs(maxSize: Option<nat>, rotate: Option<int>)

  function OrientationRotation(data: ImageData): Option<int> {
    if data.orientation.Some? then RotationAngle(data.orientation.value) else None
  }

  /** The edit arguments `shrink` hands to the image editor, or `None` for
      `false` when the original can be used as it is. */
  function ShrinkArgs(data: ImageData, uiAvailableWidth: nat, originalMaxWidth: nat, fullWidth: nat): (r: Option<EditArgs>)
    ensures var limit := ShrinkWidthLimit(uiAvailableWidth, originalMaxWidth, fullWidth);
      var resize := data.width.Some? && data.width.value > limit;
      (r == None <==> !resize && OrientationRotation(data) == None) &&
      (r.Some? ==> r.value.maxSize == (if resize then Some(limit) else None) &&
                   r.value.rotate == OrientationRotation(data))
  {
    var limit := ShrinkWidthLimit(uiAvailableWidth, originalMaxWidth, fullWidth);
    var maxSize := if data.width.Some? && data.width.value > limit then Some(limit) else None;
    var rotate := OrientationRotation(data);
    if maxSize == None && rotate == None then None else Some(EditArgs(maxSize, rotate))
  }

  /** A bounding box is never smaller than the full avatar width when the
      original maximum is not: the shrunk photo can still be cropped to size. */
  lemma ShrinkKeepsFullWidth(data: ImageData, uiAvailableWidth: nat, originalMaxWidth: nat, fullWidth: nat)
    requires fullWidth <= originalMaxWidth
    ensures var r := ShrinkArgs(data, uiAvailableWidth, originalMaxWidth, fullWidth);
      r.Some? && r.value.maxSize.Some? ==> fullWidth <= r.value.maxSize.value <= originalMaxWidth
  {
  }

  // ---------------------------------------------------------------------------
  // is_too_small

  /** What `getimagesize` returns: the width and height, or `false`. */
  datatype ImageSize = ImageSize(width: nat, height: nat)

  /** PHP's `null < n` for an integer `n`: both sides compare as booleans. */
  predicate NullLess(n: int) {
    n != 0
  }

  /** `isset($img[0]) && $img[0] < $full_width || $img[1] < $full_height`, where
      `&&` binds tighter than `||` and a failed `getimagesize` reads `$img[1]` as null. */
  function IsTooSmall(size: Option<ImageSize>, fullWidth: nat, fullHeight: nat): (r: bool)
    ensures size.Some? ==> (r <==> size.value.width < fullWidth || size.value.height < fullHeight)
    ensures size.None? ==> (r <==> fullHeight != 0)
  {
    (size.Some? && size.value.width < fullWidth) ||
    (if size.Some? then size.value.height < fullHeight else NullLess(fullHeight))
  }

  // ---------------------------------------------------------------------------
  // crop

  /** The crop request. `itemId` is already the `(int)` cast of the request's id. */
  datatype CropArgs = CropArgs(originalFile: string, objectType: string, itemId: int, avatarDir: string,
                               cropW: nat, cropH: nat)

  /** The settings and oracles `crop` consults: the upload path, the avatar sizes,
      `sanitize_key`, `wp_unique_filename`, the existing files, the capability
      check, the MIME type `getimagesize` reports and the current timestamp. */
  datatype CropEnv = CropEnv(uploadPath: string, fullWidth: nat, fullHeight: nat,
                             thumbWidth: nat, thumbHeight: nat,
                             sanitizeKey: string -> string,
                             uniqueFilename: (string, string) -> string,
                             files: set<string>, canEdit: bool,
                             mime: Option<string>, timestamp: int)

  /** One call to the parent `crop`. */
  datatype CropCall = CropCall(source: string, cropW: nat, cropH: nat, dstW: nat, dstH: nat, dstFile: string)

  /** The two cropped avatars and the timestamp their names carry. */
  datatype Cropped = Cropped(full: CropCall, thumb: CropCall, timestamp: int)

  function AvatarDir(objectType: string, sanitizeKey: string -> string): string {
    if objectType == "user" then "avatars" else sanitizeKey(objectType) + "-avatars"
  }

  function RelativePath(args: CropArgs, sanitizeKey: string -> string): string {
    "/" + AvatarDir(args.objectType, sanitizeKey) + "/" + IntToString(args.itemId) + "/" + Basename(args.originalFile)
  }

  function AbsolutePath(args: CropArgs, env: CropEnv): string {
    env.uploadPath + RelativePath(args, env.sanitizeKey)
  }

  /** The folder holding the item's avatars: the directory of the uploaded file
      for an empty item id, otherwise built from the request's `avatar_dir`. */
  function FolderDir(args: CropArgs, env: CropEnv): string {
    if args.itemId == 0 then Dirname(AbsolutePath(args, env))
    else env.uploadPath + "/" + args.avatarDir + "/" + IntToString(args.itemId)
  }

  function Extension(mime: Option<string>): (ext: string)
    ensures ext == "png" <==> mime == Some("image/png")
    ensures ext == "png" || ext == "jpg"
  {
    if mime == Some("image/png") then "png" else "jpg"
  }

  /** `<timestamp>-bp<type>.<ext>`, before `wp_unique_filename`. */
  function OutputName(timestamp: int, kind: string, ext: string): string {
    IntToString(timestamp) + "-bp" + kind + "." + ext
  }

  /** The call `crop` makes for one avatar type. */
  function CropCallFor(args: CropArgs, env: CropEnv, kind: string): CropCall {
    var folder := FolderDir(args, env);
    CropCall(AbsolutePath(args, env),
             if args.cropW == 0 then env.fullWidth else args.cropW,
             if args.cropH == 0 then env.fullHeight else args.cropH,
             if kind == "thumb" then env.thumbWidth else env.fullWidth,
             if kind == "thumb" then env.thumbHeight else env.fullHeight,
             folder + "/" + env.uniqueFilename(folder, OutputName(env.timestamp, kind, Extension(env.mime))))
  }

  /** Whether `crop` reaches the cropping step. */
  predicate CropProceeds(args: CropArgs, env: CropEnv) {
    !IsEmpty(args.originalFile) && env.canEdit &&
    AbsolutePath(args, env) in env.files && FolderDir(args, env) in env.files
  }

  /** `crop`: the bail-outs, the defaults for an empty crop box, and the loop over
      the full and thumb avatar types. */
  method Crop(args: CropArgs, env: CropEnv) returns (r: Option<Cropped>)
    ensures r.Some? <==> CropProceeds(args, env)
    ensures r.Some? ==> r.value == Cropped(CropCallFor(args, env, "full"), CropCallFor(args, env, "thumb"), env.timestamp)
  {
    if IsEmpty(args.originalFile) || !env.canEdit {
      return None;
    }
    var avatarDir := AvatarDir(args.objectType, env.sanitizeKey);
    var relativePath := "/" + avatarDir + "/" + IntToString(args.itemId) + "/" + Basename(args.originalFile);
    var absolutePath := env.uploadPath + relativePath;
    if absolutePath !in env.files {
      return None;
    }
    var folder;
    if args.itemId == 0 {
      folder := Dirname(absolutePath);
    } else {
      folder := env.uploadPath + "/" + args.avatarDir + "/" + IntToString(args.itemId);
    }
    assert absolutePath == AbsolutePath(args, env);
    assert folder == FolderDir(args, env);
    if folder !in env.files {
      return None;
    }
    var cropW := args.cropW;
    if cropW == 0 {
      cropW := env.fullWidth;
    }
    var cropH := args.cropH;
    if cropH == 0 {
      cropH := env.fullHeight;
    }
    var ext := if env.mime == Some("image/png") then "png" else "jpg";
    assert ext == Extension(env.mime);
    var calls := CropEachType(args, env, absolutePath, folder, cropW, cropH, ext);
    assert CropProceeds(args, env);
    r := Some(Cropped(calls["full"], calls["thumb"], env.timestamp));
  }

  /** One pass of the loop of `crop`: the destination size of the avatar type
      and a unique `<timestamp>-bp<type>.<ext>` name in the folder. */
  method CropOne(args: CropArgs, env: CropEnv, absolutePath: string, folder: string,
                 cropW: nat, cropH: nat, ext: string, kind: string)
    returns (call: CropCall)
    requires absolutePath == AbsolutePath(args, env) && folder == FolderDir(args, env)
    requires cropW == (if args.cropW == 0 then env.fullWidth else args.cropW)
    requires cropH == (if args.cropH == 0 then env.fullHeight else args.cropH)
    requires ext == Extension(env.mime)
    ensures call == CropCallFor(args, env, kind)
  {
    var dstW, dstH;
    if kind == "thumb" {
      dstW, dstH := env.thumbWidth, env.thumbHeight;
    } else {
      dstW, dstH := env.fullWidth, env.fullHeight;
    }
    var filename := env.uniqueFilename(folder, IntToString(env.timestamp) + "-bp" + kind + "." + ext);
    call := CropCall(absolutePath, cropW, cropH, dstW, dstH, folder + "/" + filename);
  }

  /** The loop of `crop` over the avatar types: one call per type. */
  method CropEachType(args: CropArgs, env: CropEnv, absolutePath: string, folder: string,
                      cropW: nat, cropH: nat, ext: string)
    returns (calls: map<string, CropCall>)
    requires absolutePath == AbsolutePath(args, env) && folder == FolderDir(args, env)
    requires cropW == (if args.cropW == 0 then env.fullWidth else args.cropW)
    requires cropH == (if args.cropH == 0 then env.fullHeight else args.cropH)
    requires ext == Extension(env.mime)
    ensures calls.Keys == {"full", "thumb"}
    ensures calls["full"] == CropCallFor(args, env, "full")
    ensures calls["thumb"] == CropCallFor(args, env, "thumb")
  {
    var kinds := ["full", "thumb"];
    calls := map[];
    for k := 0 to |kinds|
      invariant calls.Keys == if k == 0 then {} else if k == 1 then {"full"} else {"full", "thumb"}
      invariant forall j :: 0 <= j < k ==> kinds[j] in calls && calls[kinds[j]] == CropCallFor(args, env, kinds[j])
    {
      var call := CropOne(args, env, absolutePath, folder, cropW, cropH, ext, kinds[k]);
      calls := calls[kinds[k] := call];
    }
    assert kinds[0] == "full" && kinds[1] == "thumb";
  }

  /** The relative path splits back into the avatar folder and the uploaded file's name. */
  lemma RelativePathParts(args: CropArgs, sanitizeKey: string -> string)
    requires Basename(args.originalFile) != ""
    ensures var p := RelativePath(args, sanitizeKey);
      Basename(p) == Basename(args.originalFile) &&
      Dirname(p) == "/" + AvatarDir(args.objectType, sanitizeKey) + "/" + IntToString(args.itemId)
  {
    var dir := "/" + AvatarDir(args.objectType, sanitizeKey) + "/" + IntToString(args.itemId);
    var name := Basename(args.originalFile);
    assert RelativePath(args, sanitizeKey) == dir + "/" + name;
    assert dir[|dir| - 1] != '/' by {
      var digits := IntToString(args.itemId);
      assert dir[|dir| - 1] == digits[|digits| - 1];
      IntToStringNoSlash(args.itemId);
    }
    BasenameOfJoin(dir, name);
    DirnameOfJoin(dir, name);
  }

  lemma IntToStringNoSlash(i: int)
    ensures var s := IntToString(i); s[|s| - 1] != '/'
  {
    var n := if i < 0 then -i else i;
    var digits := NatToString(n);
    assert IsDigit(digits[|digits| - 1]);
  }

  /** For an empty item id both ways of naming the folder agree when the request's
      `avatar_dir` is the computed one: the folder is `<upload path>/<dir>/0`. */
  lemma FolderDirOfEmptyItem(args: CropArgs, env: CropEnv)
    requires args.itemId == 0 && Basename(args.originalFile) != ""
    ensures FolderDir(args, env) == env.uploadPath + "/" + AvatarDir(args.objectType, env.sanitizeKey) + "/0"
  {
    var dir := env.uploadPath + "/" + AvatarDir(args.objectType, env.sanitizeKey) + "/0";
    var name := Basename(args.originalFile);
    assert IntToString(0) == "0";
    assert AbsolutePath(args, env) == dir + "/" + name;
    DirnameOfJoin(dir, name);
  }

  /** The user avatar folder is `avatars`; every other objectType gets `<key>-avatars`. */
  lemma AvatarDirNames(objectType: string, sanitizeKey: string -> string)
    ensures objectType == "user" ==> AvatarDir(objectType, sanitizeKey) == "avatars"
    ensures objectType != "user" ==>
      var d := AvatarDir(objectType, sanitizeKey);
      |d| >= 8 && d[|d| - 8..] == "-avatars" && d[..|d| - 8] == sanitizeKey(objectType)
  {
  }
}
