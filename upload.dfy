/**
 * The upload gate for the optional photo: `allowed_file` (app.py:63-69) over the
 * allowed extensions and MIME types (app.py:32-33), the 2 MiB ceiling
 * (app.py:31, 245) and the randomised stored name (app.py:249-254).
 *
 * The file name is the output of werkzeug's `secure_filename`: ASCII, with no
 * path separator, so `pathlib.Path(name)` has the whole name as its final part.
 */
module UploadGate {
  import opened Wrappers
  import opened Strings

  /** `app.config["MAX_CONTENT_LENGTH"]`: 2 MiB. */
  const MaxContentLength: int := 2 * 1024 * 1024

  const AllowedExtensions: set<string> := {".png", ".jpg", ".jpeg"}

  const AllowedMimeTypes: set<string> := {"image/png", "image/jpeg"}

  /** `pathlib.PurePath(name).suffix`: the text from the last `.` on, provided that dot is
      neither the first nor the last character; "" otherwise. */
  function Suffix(name: string): (r: string)
    ensures r == [] || (|r| >= 2 && |r| < |name| && r == name[|name| - |r|..] && r[0] == '.' && '.' !in r[1..])
    ensures 0 < RFind(name, '.') < |name| - 1 ==> r == name[RFind(name, '.')..]
    ensures r != [] ==> 0 < RFind(name, '.') < |name| - 1
  {
    var i := RFind(name, '.');
    if 0 < i < |name| - 1 then name[i..] else ""
  }

  /** `allowed_file(filename, mimetype)`: the lower-cased suffix must be allowed, and so must
      the declared type unless it is absent or empty. */
  function AllowedFile(filename: string, mimetype: Option<string>): bool {
    var ext := Lower(Suffix(filename));
    if ext !in AllowedExtensions then false
    else if mimetype.Some? && mimetype.value != "" && mimetype.value !in AllowedMimeTypes then false
    else true
  }

  /** The test `file_size > MAX_CONTENT_LENGTH` in `generate`: it refuses only sizes above
      2 MiB, so a photo of exactly 2 MiB passes this comparison. */
  function SizeAllowed(size: int): (ok: bool)
    ensures ok <==> size <= 2097152
  {
    !(size > MaxContentLength)
  }

  /** The name ends, ignoring ASCII case, with `ext`, and something comes before it. */
  predicate EndsWithIgnoringCase(name: string, ext: string) {
    |name| > |ext| && Lower(name[|name| - |ext|..]) == ext
  }

  predicate HasAllowedExtension(name: string) {
    EndsWithIgnoringCase(name, ".png") || EndsWithIgnoringCase(name, ".jpg") || EndsWithIgnoringCase(name, ".jpeg")
  }

  /** A name that ends with an extension holding one dot, at its start, has that suffix. */
  lemma SuffixOfExtension(name: string, ext: string)
    requires |ext| >= 2 && ext[0] == '.' && '.' !in ext[1..]
    requires EndsWithIgnoringCase(name, ext)
    ensures Lower(Suffix(name)) == ext
  {
    var k := |name| - |ext|;
    var tail := name[k..];
    assert LowerChar(tail[0]) == '.';
    assert name[k] == '.';
    forall m | k < m < |name| ensures name[m] != '.' {
      assert LowerChar(tail[m - k]) == ext[m - k] && ext[m - k] in ext[1..];
    }
    assert RFind(name, '.') == k;
  }

  /** Each name ending in an allowed extension passes the extension test. */
  lemma HasAllowedExtensionPasses(name: string)
    requires HasAllowedExtension(name)
    ensures Lower(Suffix(name)) in AllowedExtensions
  {
    if EndsWithIgnoringCase(name, ".png") {
      SuffixOfExtension(name, ".png");
    } else if EndsWithIgnoringCase(name, ".jpg") {
      SuffixOfExtension(name, ".jpg");
    } else {
      SuffixOfExtension(name, ".jpeg");
    }
  }

  /** A name that passes the extension test ends in an allowed extension. */
  lemma PassesHasAllowedExtension(name: string)
    requires Lower(Suffix(name)) in AllowedExtensions
    ensures HasAllowedExtension(name)
  {
    var r := Suffix(name);
    assert r != [];
    assert r == name[|name| - |r|..];
    assert EndsWithIgnoringCase(name, Lower(r));
  }

  /** The extension test of `allowed_file` holds exactly when the name ends, ignoring case,
      in `.png`, `.jpg` or `.jpeg` with at least one character before it. */
  lemma ExtensionAllowedIff(name: string)
    ensures Lower(Suffix(name)) in AllowedExtensions <==> HasAllowedExtension(name)
  {
    if HasAllowedExtension(name) {
      HasAllowedExtensionPasses(name);
    }
    if Lower(Suffix(name)) in AllowedExtensions {
      PassesHasAllowedExtension(name);
    }
  }

  /** `allowed_file` accepts exactly an allowed extension together with an absent, empty or
      allowed declared type. */
  lemma AllowedFileIff(filename: string, mimetype: Option<string>)
    ensures AllowedFile(filename, mimetype) <==>
      && HasAllowedExtension(filename)
      && (mimetype == None || mimetype == Some("") || mimetype.value in AllowedMimeTypes)
  {
    ExtensionAllowedIff(filename);
  }

  /** A dot that starts the name and is its only dot gives no suffix, so a bare `.png`,
      `.jpg` or `.jpeg` is refused whatever its declared type. */
  lemma LeadingDotRefused(name: string, mimetype: Option<string>)
    requires name != [] && name[0] == '.' && '.' !in name[1..]
    ensures Suffix(name) == "" && !AllowedFile(name, mimetype)
  {
    assert Lower("") == "";
  }

  /** The stored name: a fresh token followed by the validated, lower-cased suffix. */
  function StoredPhotoName(token: string, filename: string): string {
    token + Lower(Suffix(filename))
  }

  /** The public path recorded in the resume, `/static/uploads/<stored name>`. */
  function PhotoPath(token: string, filename: string): string {
    "/static/uploads/" + StoredPhotoName(token, filename)
  }

  /** Of the uploaded name only the extension reaches the stored name. */
  lemma StoredNameKeepsOnlyExtension(token: string, filename: string)
    requires AllowedFile(filename, None)
    ensures || StoredPhotoName(token, filename) == token + ".png"
            || StoredPhotoName(token, filename) == token + ".jpg"
            || StoredPhotoName(token, filename) == token + ".jpeg"
  {
    var ext := Lower(Suffix(filename));
    assert ext in AllowedExtensions;
    assert ext == ".png" || ext == ".jpg" || ext == ".jpeg";
  }
}
