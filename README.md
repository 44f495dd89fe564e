# Resume-Maker core, modelled in Dafny

Resume-Maker is a Flask application. A signed-in user fills in a form, optionally
attaches a photo, picks one of eight templates and gets an HTML resume. This
project models the part of `app.py` that decides what a resume is and how it is
shown:

- the escaping helpers: `escape_html`, `render_inline`, `render_html` and the
  `nl2br` filter;
- `initials`;
- the upload gate `allowed_file` and the 2 MiB size ceiling;
- the record that `generate` builds from the form;
- the normalised data and the context that a template route renders.

The Python `str` operations these rely on are modelled as functions over
`string`: `strip`, `split()`, `split(",")`, `join`, `replace`, `rfind`, and the
ASCII part of `lower`/`upper`. They live in `strings.dfy`.

Files:

- `wrappers.dfy`: `Option` and `Result`.
- `strings.dfy`: the Python string built-ins.
- `sanitizer.dfy`: the escaping helpers and `initials`. `escape_html` is modelled
  as the five chained `replace` passes the code performs. It is then proved
  equal to a per-character reference.
- `upload.dfy`: `allowed_file`, `pathlib`'s suffix rule, the size gate and the
  stored photo name.
- `json.dfy`: JSON values as `json.load` returns them, with Python truthiness.
- `assembler.dfy`: the record-building and validation part of `generate`. It is an
  imperative `Generate` method whose two append loops are `AssembleExperience`
  and `AssembleEducation`.
- `normalizer.dfy`: the template route. It covers normalising the stored `data`,
  building the context, and the `context.update` that only some templates get.

These are parameters rather than effects:

- The uuid tokens, the timestamp, the session's user id and the resume directory
  are inputs of `Generate`.
- The photo upload is a value holding the file name (after `secure_filename`),
  its declared type, its measured size and whether `save` succeeded.
- `Generate` returns the document it writes, not a file.
- The template route receives the saved path kept in the session (`last_resume_file`) and a map from paths to loaded
  JSON documents.

`generate` writes the resume document *before* it checks the template name
(app.py:263-276). A rejected template name therefore still leaves a saved
document and its path in the session. The model follows the code: the
`InvalidTemplate` outcome carries the document that was written.

## Model

| member | source | states |
|---|---|---|
| Strings.IsSpace | app.py:61 | `str.isspace()`: the whitespace characters at which `split()` cuts and which `strip()` removes |
| Strings.Strip | app.py:186-193 | `str.strip()` leaves no whitespace at either end |
| Strings.StripSlice | app.py:186-193 | what `strip` keeps is one contiguous slice, with only whitespace outside it |
| Strings.StripKeepsAbsent | app.py:192 | a character missing from an entry is missing from its stripped form |
| Strings.StripEmpty | app.py:192-193 | `strip` gives the empty string exactly when the input is all whitespace |
| Strings.Words | app.py:61 | every word `split()` yields is non-empty and contains no whitespace |
| Strings.WordsKeepNonSpace | app.py:61 | the words of `split()` together hold exactly the non-whitespace characters, in order |
| Strings.WordsEmpty | app.py:61 | `split()` yields no word exactly when the input is all whitespace |
| Strings.WordsFirst | app.py:61 | the first word starts at the first non-whitespace character |
| Strings.WordsSpaceSplit | app.py:61 | `split()` cuts at every whitespace character: the words on the two sides are found separately and no word spans it |
| Strings.WordsOfWord | app.py:61 | a non-empty run without whitespace is exactly one word |
| Strings.WordsSpacePrefix | app.py:61 | leading whitespace does not change the words |
| Strings.WordsTwo | app.py:61 | two whitespace-separated runs, after optional whitespace and before nothing or whitespace, are the first two words |
| Strings.RFind | app.py:64 | the last position of a character, or -1 exactly when it is absent |
| Strings.SplitOn | app.py:192 | `split(",")` yields at least one piece, no piece holds the separator, and joining the pieces gives the input back |
| Strings.SplitJoin | app.py:192 | splitting a join of separator-free pieces gives the pieces back |
| Strings.Replace | app.py:46-50 | `str.replace`: matches of a non-empty pattern are found left to right, and each is replaced unless it overlaps one already replaced |
| Strings.ReplaceCharAppend | app.py:46-50 | one `replace` pass distributes over concatenation when the pattern is a single character |
| Strings.ReplaceSkip | app.py:46-50 | text holding no first character of the pattern is copied, and the scan goes on after it |
| Strings.ReplaceAbsent | app.py:46-50 | a string holding no first character of the pattern is left unchanged |
| Strings.Lower | app.py:64 | lower-casing keeps the length and maps each character |
| Sanitizer.EscapeHtml | app.py:42-50 | `escape_html`: "" for a missing or empty text, otherwise the five chained `replace` passes with `&` first; what it computes is stated by the lemmas below |
| Sanitizer.EscapeHtmlIsCharwise | app.py:42-50 | the five chained `replace` passes equal replacing each of `& < > " '` by its entity in one pass |
| Sanitizer.EscapeHtmlSafe | app.py:42-50 | the output has no raw `<`, `>`, `"` or `'`, and every `&` starts one of the five entities |
| Sanitizer.EscapeHtmlPlain | app.py:42-50 | text without any of the five characters comes back unchanged |
| Sanitizer.EscapeRoundTrip | app.py:42-50 | decoding the five entities recovers the original text, so escaping loses nothing |
| Sanitizer.EscapeCharsGrows | app.py:42-50 | escaping never shortens text, and it lengthens any text holding one of the five characters |
| Sanitizer.EscapeNotIdempotent | app.py:42-50 | escaping twice differs from escaping once whenever the text holds one of the five characters |
| Sanitizer.RenderInline | app.py:52-53 | `render_inline`: `escape_html`, then every newline replaced by `<br>` |
| Sanitizer.RenderHtml | app.py:55-58 | `render_html`: "" for a missing or empty text, otherwise escape, restore each escaped `<br>`, then replace each newline by `<br>` |
| Sanitizer.Nl2br | app.py:109-113 | the `nl2br` filter: "" for a missing or empty text, otherwise escape and replace each newline by `<br>` |
| Sanitizer.Nl2brIsRenderInline | app.py:109-113 | the `nl2br` filter computes the same as `render_inline` |
| Sanitizer.RenderInlineIsCharwise | app.py:52-53 | `render_inline` escapes each character, turning each newline into `<br>` |
| Sanitizer.RenderHtmlIsTokenwise | app.py:55-58 | `render_html` restores each `<br>` written by the user, escapes everything else and turns newlines into `<br>` |
| Sanitizer.RenderInlineSafe | app.py:52-53 | every `<` in the output starts a `<br>` tag, every `>` ends one, and no newline is left |
| Sanitizer.RenderHtmlSafe | app.py:55-58 | the same as for `render_inline`: only `<br>` survives as a tag, and no newline is left |
| Sanitizer.RenderHtmlWithoutBreaks | app.py:55-58 | text with no `<br>` and no newline renders as plain escaping |
| Sanitizer.BreakTagKept | app.py:55-58 | the exact lowercase `<br>` comes through `render_html` as a tag |
| Sanitizer.OtherBreakTagsEscaped | app.py:52-58 | `<BR>` stays escaped in `render_html`, and `<br>` stays escaped in `render_inline` |
| Sanitizer.Initials | app.py:60-61 | `initials`: the upper-cased first characters of the first two words of the name, a missing or empty name read as one space |
| Sanitizer.InitialsEmpty | app.py:60-61 | at most two initials, and none exactly for a missing or all-whitespace name |
| Sanitizer.InitialsFirst | app.py:60-61 | the first initial is the upper-cased first non-whitespace character of the name |
| Sanitizer.InitialsTwo | app.py:60-61 | when the first two words of a name are `a` and `b`, its initials are exactly the upper-cased first characters of `a` and `b` |
| UploadGate.AllowedFile | app.py:63-69 | `allowed_file`: the lower-cased suffix must be allowed, and so must the declared type unless it is absent or empty |
| UploadGate.Suffix | app.py:64 | `pathlib`'s suffix is the tail from the last dot exactly when that dot is neither the first nor the last character, and empty otherwise |
| UploadGate.SizeAllowed | app.py:245-247 | a size is accepted exactly when it is at most 2·1024·1024 bytes |
| UploadGate.ExtensionAllowedIff | app.py:63-66 | the extension test passes exactly when the name ends, in any ASCII case, with `.png`, `.jpg` or `.jpeg` after at least one character |
| UploadGate.AllowedFileIff | app.py:63-69 | `allowed_file` accepts exactly an allowed extension with an absent, empty or allowed MIME type |
| UploadGate.LeadingDotRefused | app.py:63-66 | a name whose only dot is its first character, such as `.png`, has no suffix and is refused whatever its declared type |
| UploadGate.StoredPhotoName | app.py:249-250 | the stored file name: the fresh token followed by the lower-cased suffix |
| UploadGate.PhotoPath | app.py:254 | the recorded photo path, `/static/uploads/` followed by the stored file name |
| UploadGate.StoredNameKeepsOnlyExtension | app.py:249-250 | of an accepted file name, only its lower-cased extension reaches the stored name |
| FormAssembler.FormGet | app.py:186-192 | `request.form.get(key, default)`: the first value sent for the key, or the default when none was sent |
| FormAssembler.FormGetList | app.py:193-215 | `request.form.getlist(key)`: every value sent for the key, in order, or none |
| FormAssembler.CleanList | app.py:192-193 | the comprehension: each entry stripped, the empty results dropped, the order kept |
| FormAssembler.Skills | app.py:192 | the skills field split on commas and then cleaned |
| FormAssembler.CleanListClean | app.py:192-193 | every kept skill or language is non-empty and trimmed, and no more are kept than were sent |
| FormAssembler.CleanListMembers | app.py:192-193 | a string is kept exactly when it is the non-empty trimmed form of an entry sent |
| FormAssembler.CleanListAppend | app.py:192-193 | cleaning works entry by entry and keeps the order |
| FormAssembler.SkillsClean | app.py:192 | no skill is empty or untrimmed, and none contains a comma |
| FormAssembler.SkillsExample | app.py:192 | a field shaped like "Go, Rust, , Python" yields exactly the three words, in order |
| FormAssembler.AssembleExperience | app.py:200-210 | one entry per title; a short companion list is padded with ""; extra companion entries are dropped |
| FormAssembler.AssembleEducation | app.py:212-221 | one entry per degree, with the same padding and dropping |
| FormAssembler.ExperienceZipIgnoresExtra | app.py:204-210 | companion entries past the last title do not change the experience list |
| FormAssembler.DataObject | app.py:186-261 | the stored `data` always holds the eleven keys built up front plus `photo_exists`, and holds `photo` exactly when a photo path was recorded |
| FormAssembler.ResumePath | app.py:266 | the document path, `<resumes dir>/<user id>_<resume id>.json` |
| FormAssembler.ResumeDocument | app.py:268 | the written document: the resume id, the user id and the `data` object |
| FormAssembler.ChosenTemplate | app.py:273 | the chosen template is the first `template` value sent, or `template1` when none is |
| FormAssembler.TemplateNameIff | app.py:273-274 | a template name is accepted exactly when it is `template` followed by one digit from 1 to 8 |
| FormAssembler.Generate | app.py:185-276 | a refused type or an oversized photo writes nothing; otherwise the record comes from the form and carries the photo path only when saving worked; the document is written before the template check; a missing template means `template1` |
| JsonValues.Truthy | app.py:44 | Python truthiness of a loaded value: `None`, `False`, 0, "", `[]` and `{}` are false and every other value is true |
| JsonValues.Get | app.py:297-311 | `d.get(key, default)`: the stored value when the key is present, the default otherwise |
| RenderNormalizer.Normalize | app.py:299-312 | exactly the twelve keys; a key the stored data holds is copied unchanged; a missing text key becomes "", a missing list key [], a missing photo null and a missing `photo_exists` false |
| RenderNormalizer.NormalizeIdempotent | app.py:299-312 | normalising normalised data changes nothing |
| RenderNormalizer.NormalizeStoredRecord | app.py:299-312 | every field `generate` stored is read back unchanged, and a missing photo reads as null |
| RenderNormalizer.DataOf | app.py:296-297 | the data can be read exactly when the payload is an object whose `data` entry, if present, is an object; the result is that object, or `{}` when the entry is absent |
| RenderNormalizer.DataOfDocument | app.py:296-297 | a document written by `generate` yields the data object it stored |
| RenderNormalizer.InitialsOf | app.py:318 | a falsy name gives "", a string name gives its initials, and any other value fails |
| RenderNormalizer.BuildContext | app.py:314-337 | it fails exactly when the stored name is a truthy value other than a string, which has no `split`; a missing or blank name gives empty initials and succeeds; otherwise it builds the context for the template |
| RenderNormalizer.TemplateView | app.py:289-337 | a missing saved path or a missing file is a 400 error, and a malformed document fails; otherwise the context comes from the stored data |
| RenderNormalizer.FlatBindingsMatchData | app.py:325-337 | the ten field variables are bound exactly for templates 1, 5, 6, 7 and 8, each equal to the data field of the same name |
| RenderNormalizer.ContextAgreesWithData | app.py:314-319 | the context's `photo` and `photo_exists` equal the normalised ones, and its initials are those of the name |
| RenderNormalizer.StoredRecordContext | app.py:299-337 | the context built from a stored record shows its initials and photo fields, and for templates 1, 5, 6, 7 and 8 binds each of the ten fields to the stored value |
| RenderNormalizer.GeneratedResumeRenders | app.py:289-337 | viewing a document `generate` wrote shows the submitted name's initials and the photo fields, and for templates 1, 5, 6, 7 and 8 binds each of the ten fields to the value `generate` stored |

## Left out

- Flask routing, the session, `flash`, redirects, `abort` and `render_template`. They are plumbing around the modelled values. The route's outcomes are the `Result`/outcome datatypes.
- Signing up, logging in, and the user store (`load_users`, `save_users`, `find_user_by_email`, `add_user`). They are not part of the resume core.
- The JSON file I/O and its lock. A written document is returned as a value, and reading a document is a map lookup.
- `secure_filename` is outside the model. Its output is an input here, assumed to be one final path component (no `/`).
- UploadGate.SizeAllowed: only the comparison in `generate` is modelled. The same `MAX_CONTENT_LENGTH` makes werkzeug refuse a request body over 2 MiB when `generate` first reads `request.form` (app.py:186). The catch-all at app.py:280-283 turns that refusal into the generic error redirect, and nothing is written. So a 2 MiB photo together with the other form fields never reaches that comparison.
- The `seek`/`tell` size measurement and its `read()` fallback are outside the model. So is `photo_file.save` and the exception it may raise. Their outcomes are the upload's `size` and `saved` fields.
- `uuid.uuid4()` and `datetime.utcnow()`. They become the `photoToken`, `resumeId` and `createdAt` parameters.
- The catch-all `except` in `generate`. `KeyError` and `OSError` are not modelled.
- `download_resume_json`, the static route and the error handlers are not part of this model.
- Sanitizer.Initials: only ASCII letters are upper-cased. Python's full Unicode case mapping (which can turn one character into several) is not modelled.
- Strings.Lower: only ASCII letters are lower-cased. The file names it is applied to are ASCII after `secure_filename`.
- JsonValues.Json: numbers are integers only. Floating-point values are not modelled.
- The escaping helpers are modelled on strings and on a missing value. Non-string values reaching them from a template are not modelled.
