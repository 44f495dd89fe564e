/**
 * The record-building part of `generate` (app.py:182-278): the form fields are
 * trimmed, the skills split on commas, the parallel experience and education
 * arrays zipped against their first array, the photo gated and recorded, the
 * resume document written, and only then the template name checked.
 *
 * The uuid tokens, the timestamp, the session's user id and the resume
 * directory are parameters; the photo's measured size and the outcome of
 * `photo_file.save` are fields of the upload.
 */
module FormAssembler {
  import opened Wrappers
  import opened Strings
  import opened JsonValues
  import opened UploadGate

  /** A submitted form: each field with every value sent for it, in order (werkzeug's MultiDict). */
  type Form = map<string, seq<string>>

  /** `form.get(key, default)`: the first value sent for `key`, or `default`. */
  function FormGet(form: Form, key: string, default: string): string {
    if key in form && form[key] != [] then form[key][0] else default
  }

  /** `form.getlist(key)`: every value sent for `key`. */
  function FormGetList(form: Form, key: string): seq<string> {
    if key in form then form[key] else []
  }

  datatype Experience = Experience(title: string, company: string, duration: string, description: string)

  datatype Education = Education(degree: string, university: string, year: string)

  /** The `data` dict `generate` builds; `photo` is None when the key is never set. */
  datatype ResumeData = ResumeData(
    name: string, title: string, email: string, phone: string, address: string, summary: string,
    skills: seq<string>, languages: seq<string>,
    experience: seq<Experience>, education: seq<Education>,
    createdAt: string, photo: Option<string>, photoExists: bool)

  // ---------- skills and languages ----------

  /** `[f(x) for x in xs]`. */
  function MapEach(f: string -> string, xs: seq<string>): (r: seq<string>)
    ensures |r| == |xs| && forall i :: 0 <= i < |xs| ==> r[i] == f(xs[i])
    decreases |xs|
  {
    if xs == [] then [] else [f(xs[0])] + MapEach(f, xs[1..])
  }

  /** Mapping works piece by piece. */
  lemma {:induction false} MapEachAppend(f: string -> string, a: seq<string>, b: seq<string>)
    ensures MapEach(f, a + b) == MapEach(f, a) + MapEach(f, b)
    decreases |a|
  {
    if a == [] {
      assert a + b == b;
    } else {
      assert (a + b)[1..] == a[1..] + b;
      MapEachAppend(f, a[1..], b);
    }
  }

  /** The entries that are not empty, in order. */
  function DropEmpty(ys: seq<string>): seq<string>
    decreases |ys|
  {
    if ys == [] then []
    else if ys[0] != "" then [ys[0]] + DropEmpty(ys[1..])
    else DropEmpty(ys[1..])
  }

  /** `[x.strip() for x in xs if x.strip()]`: the trimmed entries that are not empty. */
  function CleanList(xs: seq<string>): seq<string> {
    DropEmpty(MapEach(Strip, xs))
  }

  lemma {:induction false} DropEmptyShorter(ys: seq<string>)
    ensures |DropEmpty(ys)| <= |ys|
    decreases |ys|
  {
    if ys != [] { DropEmptyShorter(ys[1..]); }
  }

  /** An entry is kept exactly when it is sent and not empty. */
  lemma {:induction false} DropEmptyMembers(ys: seq<string>, y: string)
    ensures y in DropEmpty(ys) <==> y != "" && y in ys
    decreases |ys|
  {
    if ys != [] {
      DropEmptyMembers(ys[1..], y);
      assert ys == [ys[0]] + ys[1..];
    }
  }

  /** Dropping works piece by piece and keeps the order. */
  lemma {:induction false} DropEmptyAppend(a: seq<string>, b: seq<string>)
    ensures DropEmpty(a + b) == DropEmpty(a) + DropEmpty(b)
    decreases |a|
  {
    if a == [] {
      assert a + b == b;
    } else {
      assert (a + b)[1..] == a[1..] + b;
      DropEmptyAppend(a[1..], b);
    }
  }

  /** A string is kept exactly when it is the non-empty trimmed form of an entry sent. */
  lemma CleanListMembers(xs: seq<string>, x: string)
    ensures x in CleanList(xs) <==> x != "" && exists j :: 0 <= j < |xs| && Strip(xs[j]) == x
  {
    var t := MapEach(Strip, xs);
    DropEmptyMembers(t, x);
    if x in t {
      var j :| 0 <= j < |t| && t[j] == x;
      assert Strip(xs[j]) == x;
    }
    if exists j :: 0 <= j < |xs| && Strip(xs[j]) == x {
      var j :| 0 <= j < |xs| && Strip(xs[j]) == x;
      assert t[j] == x;
    }
  }

  /** Every entry kept is non-empty and already trimmed, and there are no more entries than
      were sent. */
  lemma CleanListClean(xs: seq<string>)
    ensures |CleanList(xs)| <= |xs|
    ensures forall x :: x in CleanList(xs) ==> x != "" && Strip(x) == x
  {
    DropEmptyShorter(MapEach(Strip, xs));
    forall x | x in CleanList(xs) ensures x != "" && Strip(x) == x {
      CleanListMembers(xs, x);
      var j :| 0 <= j < |xs| && Strip(xs[j]) == x;
      StripIdempotent(xs[j]);
    }
  }

  /** Cleaning keeps the order of the entries: it works piece by piece. */
  lemma CleanListAppend(a: seq<string>, b: seq<string>)
    ensures CleanList(a + b) == CleanList(a) + CleanList(b)
  {
    MapEachAppend(Strip, a, b);
    DropEmptyAppend(MapEach(Strip, a), MapEach(Strip, b));
  }

  lemma DropEmptyOne(y: string)
    ensures DropEmpty([y]) == if y != "" then [y] else []
  {
    assert [y][1..] == [];
  }

  lemma CleanListOne(x: string)
    ensures CleanList([x]) == if Strip(x) != "" then [Strip(x)] else []
  {
    assert MapEach(Strip, [x]) == [Strip(x)];
    DropEmptyOne(Strip(x));
  }

  /** The skills list: the comma-separated pieces of the field, trimmed, empty ones dropped. */
  function Skills(raw: string): seq<string> {
    CleanList(SplitOn(raw, ','))
  }

  /** Every skill is non-empty, trimmed and free of commas. */
  lemma SkillsClean(raw: string)
    ensures forall x :: x in Skills(raw) ==> x != "" && Strip(x) == x && ',' !in x
  {
    var pieces := SplitOn(raw, ',');
    CleanListClean(pieces);
    forall x | x in Skills(raw) ensures ',' !in x {
      CleanListMembers(pieces, x);
      var j :| 0 <= j < |pieces| && Strip(pieces[j]) == x;
      StripKeepsAbsent(pieces[j], ',');
    }
  }

  /** A bare word: non-empty, no comma, nothing to trim (`Go`, `Rust`, `Python`). */
  predicate BareWord(w: string) {
    w != [] && ',' !in w && !IsSpace(w[0]) && !IsSpace(w[|w| - 1])
  }

  /** The shape of "Go, Rust, , Python": the blank entry is dropped and the three words are
      kept, trimmed and in order. */
  lemma SkillsExample(a: string, b: string, c: string)
    requires BareWord(a) && BareWord(b) && BareWord(c)
    ensures Skills(a + ", " + b + ", , " + c) == [a, b, c]
  {
    SplitExample(a, b, c);
    CleanChain(a, b, c);
  }

  /** The field splits into the three words, the second and the last after one space, and a
      single space between them. */
  lemma SplitExample(a: string, b: string, c: string)
    requires BareWord(a) && BareWord(b) && BareWord(c)
    ensures SplitOn(a + ", " + b + ", , " + c, ',') == [a] + [[' '] + b] + [[' ']] + [[' '] + c]
  {
    var pieces := [a] + [[' '] + b] + [[' ']] + [[' '] + c];
    JoinExample(a, b, c);
    assert ',' !in pieces[1] && ',' !in pieces[3];
    SplitJoin(pieces, ',');
  }

  lemma JoinExample(a: string, b: string, c: string)
    ensures JoinWith([a] + [[' '] + b] + [[' ']] + [[' '] + c], ',') == a + ", " + b + ", , " + c
  {
    var pieces := [a] + [[' '] + b] + [[' ']] + [[' '] + c];
    assert JoinWith(pieces[3..], ',') == [' '] + c;
    assert JoinWith(pieces[2..], ',') == [' '] + [','] + ([' '] + c) by { assert pieces[2..][1..] == pieces[3..]; }
    assert JoinWith(pieces[1..], ',') == [' '] + b + [','] + [' '] + [','] + [' '] + c by { assert pieces[1..][1..] == pieces[2..]; }
  }

  lemma CleanChain(a: string, b: string, c: string)
    requires BareWord(a) && BareWord(b) && BareWord(c)
    ensures CleanList([a] + [[' '] + b] + [[' ']] + [[' '] + c]) == [a, b, c]
  {
    CleanPrefix(a, b);
    CleanPadded(c, [a] + [[' '] + b] + [[' ']]);
  }

  lemma CleanPrefix(a: string, b: string)
    requires BareWord(a) && BareWord(b)
    ensures CleanList([a] + [[' '] + b] + [[' ']]) == [a, b]
  {
    CleanBare(a);
    CleanPadded(b, [a]);
    CleanBlank([a] + [[' '] + b]);
  }

  /** A bare word cleans to itself. */
  lemma CleanBare(w: string)
    requires BareWord(w)
    ensures CleanList([w]) == [w]
  {
    StripPadded(w);
    CleanListOne(w);
  }

  /** Appending a word after one space appends the word itself to the cleaned list. */
  lemma CleanPadded(w: string, xs: seq<string>)
    requires BareWord(w)
    ensures CleanList(xs + [[' '] + w]) == CleanList(xs) + [w]
  {
    StripPadded(w);
    CleanListOne([' '] + w);
    CleanListAppend(xs, [[' '] + w]);
  }

  /** Appending a blank entry changes nothing. */
  lemma CleanBlank(xs: seq<string>)
    ensures CleanList(xs + [[' ']]) == CleanList(xs)
  {
    StripEmpty([' ']);
    CleanListOne([' ']);
    CleanListAppend(xs, [[' ']]);
  }

  /** A word without surrounding whitespace is its own strip, with one space before it too. */
  lemma StripPadded(w: string)
    requires w != [] && !IsSpace(w[0]) && !IsSpace(w[|w| - 1])
    ensures Strip(w) == w && Strip([' '] + w) == w
  {
    var v := [' '] + w;
    assert LeadingSpace(w) == 0 && StripStart(w) == w;
    assert TrailingSpace(w) == 0 && StripEnd(w) == w;
    assert v[0] == ' ' && v[1..] == w;
    assert LeadingSpace(v) == 1;
    assert StripStart(v) == w;
  }

  // ---------- experience and education ----------

  /** `xs[i] if i < len(xs) else ""`: the companion entry at `i`, or empty fill. */
  function EntryOr(xs: seq<string>, i: nat): string {
    if i < |xs| then xs[i] else ""
  }

  /** The zip policy: one entry per title, companions padded with "" and their extra
      entries dropped. */
  predicate ExperienceZipped(exp: seq<Experience>, titles: seq<string>, companies: seq<string>,
                             durations: seq<string>, descriptions: seq<string>) {
    && |exp| == |titles|
    && forall i :: 0 <= i < |exp| ==>
         exp[i] == Experience(titles[i], EntryOr(companies, i), EntryOr(durations, i), EntryOr(descriptions, i))
  }

  /** The same policy for education, keyed on the degrees. */
  predicate EducationZipped(edu: seq<Education>, degrees: seq<string>, universities: seq<string>, years: seq<string>) {
    && |edu| == |degrees|
    && forall i :: 0 <= i < |edu| ==> edu[i] == Education(degrees[i], EntryOr(universities, i), EntryOr(years, i))
  }

  /** The experience loop: one appended entry per title. */
  method AssembleExperience(titles: seq<string>, companies: seq<string>, durations: seq<string>,
                            descriptions: seq<string>) returns (experience: seq<Experience>)
    ensures ExperienceZipped(experience, titles, companies, durations, descriptions)
  {
    experience := [];
    var i := 0;
    while i < |titles|
      invariant 0 <= i <= |titles| && |experience| == i
      invariant forall k :: 0 <= k < i ==>
        experience[k] == Experience(titles[k], EntryOr(companies, k), EntryOr(durations, k), EntryOr(descriptions, k))
    {
      experience := experience + [Experience(
        titles[i],
        if i < |companies| then companies[i] else "",
        if i < |durations| then durations[i] else "",
        if i < |descriptions| then descriptions[i] else "")];
      i := i + 1;
    }
  }

  /** The education loop: one appended entry per degree. */
  method AssembleEducation(degrees: seq<string>, universities: seq<string>, years: seq<string>)
    returns (education: seq<Education>)
    ensures EducationZipped(education, degrees, universities, years)
  {
    education := [];
    var i := 0;
    while i < |degrees|
      invariant 0 <= i <= |degrees| && |education| == i
      invariant forall k :: 0 <= k < i ==> education[k] == Education(degrees[k], EntryOr(universities, k), EntryOr(years, k))
    {
      education := education + [Education(
        degrees[i],
        if i < |universities| then universities[i] else "",
        if i < |years| then years[i] else "")];
      i := i + 1;
    }
  }

  /** The zip is a function of its inputs, and companion entries past the last title do not
      change it. */
  lemma ExperienceZipIgnoresExtra(exp: seq<Experience>, exp': seq<Experience>, titles: seq<string>,
                                  companies: seq<string>, durations: seq<string>, descriptions: seq<string>,
                                  moreCompanies: seq<string>, moreDurations: seq<string>, moreDescriptions: seq<string>)
    requires |companies| >= |titles| && |durations| >= |titles| && |descriptions| >= |titles|
    requires ExperienceZipped(exp, titles, companies, durations, descriptions)
    requires ExperienceZipped(exp', titles, companies + moreCompanies, durations + moreDurations,
                              descriptions + moreDescriptions)
    ensures exp' == exp
  {
    forall i | 0 <= i < |exp| ensures exp'[i] == exp[i] {
      assert (companies + moreCompanies)[i] == companies[i];
      assert (durations + moreDurations)[i] == durations[i];
      assert (descriptions + moreDescriptions)[i] == descriptions[i];
    }
  }

  /** Three titles and two companies give three entries, the third with an empty company. */
  method ShortCompanionExample() {
    var exp := AssembleExperience(["Dev", "Lead", "CTO"], ["Acme", "Initech"], [], []);
    assert |exp| == 3;
    assert exp[2] == Experience("CTO", "", "", "");
    assert exp[1].company == "Initech";
  }

  // ---------- the stored document ----------

  function ExperienceJson(e: Experience): Json {
    JObj(map["title" := JStr(e.title), "company" := JStr(e.company),
             "duration" := JStr(e.duration), "description" := JStr(e.description)])
  }

  function EducationJson(e: Education): Json {
    JObj(map["degree" := JStr(e.degree), "university" := JStr(e.university), "year" := JStr(e.year)])
  }

  /** The keys `generate` always writes into `data`. */
  const StoredKeys: set<string> :=
    {"name", "title", "email", "phone", "address", "summary", "skills", "languages", "experience", "education",
     "created_at", "photo_exists"}

  /** The `data` dict as written to disk; `photo` is present only when it was set. */
  function DataObject(d: ResumeData): (r: map<string, Json>)
    ensures r.Keys == StoredKeys + (if d.photo.Some? then {"photo"} else {})
    ensures d.photo.Some? ==> r["photo"] == JStr(d.photo.value)
    ensures r["name"] == JStr(d.name) && r["photo_exists"] == JBool(d.photoExists)
  {
    var base := map[
      "name" := JStr(d.name), "title" := JStr(d.title), "email" := JStr(d.email),
      "phone" := JStr(d.phone), "address" := JStr(d.address), "summary" := JStr(d.summary),
      "skills" := StringList(d.skills), "languages" := StringList(d.languages),
      "experience" := JArr(seq(|d.experience|, i requires 0 <= i < |d.experience| => ExperienceJson(d.experience[i]))),
      "education" := JArr(seq(|d.education|, i requires 0 <= i < |d.education| => EducationJson(d.education[i]))),
      "created_at" := JStr(d.createdAt), "photo_exists" := JBool(d.photoExists)];
    if d.photo.Some? then base["photo" := JStr(d.photo.value)] else base
  }

  /** `{"id": resume_id, "user_id": user_id, "data": data}`. */
  function ResumeDocument(resumeId: string, userId: string, d: ResumeData): Json {
    JObj(map["id" := JStr(resumeId), "user_id" := JStr(userId), "data" := JObj(DataObject(d))])
  }

  /** `RESUMES_DIR / f"{user_id}_{resume_id}.json"`. */
  function ResumePath(resumesDir: string, userId: string, resumeId: string): string {
    resumesDir + "/" + userId + "_" + resumeId + ".json"
  }

  // ---------- templates ----------

  /** `[f"template{i}" for i in range(1, 9)]`. */
  const TemplateNames: set<string> :=
    {"template1", "template2", "template3", "template4", "template5", "template6", "template7", "template8"}

  /** The template field, `template1` when it is missing. */
  function ChosenTemplate(form: Form): string {
    FormGet(form, "template", "template1")
  }

  /** A template name is accepted exactly when it is `template` followed by one digit 1 to 8. */
  lemma TemplateNameIff(t: string)
    ensures t in TemplateNames <==> |t| == 9 && t[..8] == "template" && '1' <= t[8] <= '8'
  {
    if |t| == 9 && t[..8] == "template" && '1' <= t[8] <= '8' {
      var c := t[8];
      assert t == "template" + [c];
      if c == '1' { assert t == "template1"; }
      else if c == '2' { assert t == "template2"; }
      else if c == '3' { assert t == "template3"; }
      else if c == '4' { assert t == "template4"; }
      else if c == '5' { assert t == "template5"; }
      else if c == '6' { assert t == "template6"; }
      else if c == '7' { assert t == "template7"; }
      else { assert t == "template8"; }
    }
  }

  // ---------- generate ----------

  /** The photo part of a submission whose file and file name are present: the name after
      `secure_filename`, the declared type, the measured size and whether saving worked. */
  datatype PhotoUpload = PhotoUpload(filename: string, mimetype: string, size: nat, saved: bool)

  /** A document written to the resume directory. */
  datatype StoredDocument = StoredDocument(path: string, payload: Json)

  datatype GenerateOutcome =
    | InvalidFileType
    | FileTooLarge
    | InvalidTemplate(written: StoredDocument, data: ResumeData)
    | Generated(template: string, written: StoredDocument, data: ResumeData)

  /** The record's text and list fields as `generate` derives them from the form. */
  predicate Assembled(d: ResumeData, form: Form, createdAt: string) {
    && d.name == Strip(FormGet(form, "name", ""))
    && d.title == Strip(FormGet(form, "title", ""))
    && d.email == Strip(FormGet(form, "email", ""))
    && d.phone == Strip(FormGet(form, "phone", ""))
    && d.address == Strip(FormGet(form, "address", ""))
    && d.summary == Strip(FormGet(form, "summary", ""))
    && d.skills == Skills(FormGet(form, "skills", ""))
    && d.languages == CleanList(FormGetList(form, "languages[]"))
    && ExperienceZipped(d.experience, FormGetList(form, "experience_title[]"),
         FormGetList(form, "experience_company[]"), FormGetList(form, "experience_duration[]"),
         FormGetList(form, "experience_description[]"))
    && EducationZipped(d.education, FormGetList(form, "education_degree[]"),
         FormGetList(form, "education_university[]"), FormGetList(form, "education_year[]"))
    && d.createdAt == createdAt
  }

  /** `generate`: build the record, gate the photo, write the document, then check the
      template name. A refused photo writes nothing; a refused template name comes after
      the document has been written. */
  method Generate(form: Form, upload: Option<PhotoUpload>, createdAt: string, photoToken: string,
                  userId: string, resumeId: string, resumesDir: string)
    returns (outcome: GenerateOutcome)
    ensures upload.Some? && !AllowedFile(upload.value.filename, Some(upload.value.mimetype))
      ==> outcome == InvalidFileType
    ensures upload.Some? && AllowedFile(upload.value.filename, Some(upload.value.mimetype)) && !SizeAllowed(upload.value.size)
      ==> outcome == FileTooLarge
    ensures (upload.None? || (AllowedFile(upload.value.filename, Some(upload.value.mimetype)) && SizeAllowed(upload.value.size)))
      ==> && (outcome.InvalidTemplate? || outcome.Generated?)
          && Assembled(outcome.data, form, createdAt)
          && outcome.data.photoExists == (upload.Some? && upload.value.saved)
          && outcome.data.photo == (if upload.Some? && upload.value.saved
                                    then Some(PhotoPath(photoToken, upload.value.filename)) else None)
          && outcome.written == StoredDocument(ResumePath(resumesDir, userId, resumeId),
                                               ResumeDocument(resumeId, userId, outcome.data))
          && (outcome.Generated? <==> ChosenTemplate(form) in TemplateNames)
          && (outcome.Generated? ==> outcome.template == ChosenTemplate(form))
  {
    var name := Strip(FormGet(form, "name", ""));
    var title := Strip(FormGet(form, "title", ""));
    var email := Strip(FormGet(form, "email", ""));
    var phone := Strip(FormGet(form, "phone", ""));
    var address := Strip(FormGet(form, "address", ""));
    var summary := Strip(FormGet(form, "summary", ""));
    var skills := Skills(FormGet(form, "skills", ""));
    var languages := CleanList(FormGetList(form, "languages[]"));

    var experience := AssembleExperience(FormGetList(form, "experience_title[]"),
      FormGetList(form, "experience_company[]"), FormGetList(form, "experience_duration[]"),
      FormGetList(form, "experience_description[]"));
    var education := AssembleEducation(FormGetList(form, "education_degree[]"),
      FormGetList(form, "education_university[]"), FormGetList(form, "education_year[]"));

    var photo: Option<string> := None;
    var photoExists := false;
    if upload.Some? {
      var u := upload.value;
      if !AllowedFile(u.filename, Some(u.mimetype)) {
        return InvalidFileType;
      }
      if u.size > MaxContentLength {
        return FileTooLarge;
      }
      var filename := StoredPhotoName(photoToken, u.filename);
      if u.saved {
        photo := Some("/static/uploads/" + filename);
        photoExists := true;
      } else {
        photoExists := false;
      }
    } else {
      photoExists := false;
    }

    var data := ResumeData(name, title, email, phone, address, summary, skills, languages,
                           experience, education, createdAt, photo, photoExists);
    var written := StoredDocument(ResumePath(resumesDir, userId, resumeId), ResumeDocument(resumeId, userId, data));

    var template := FormGet(form, "template", "template1");
    if template !in TemplateNames {
      return InvalidTemplate(written, data);
    }
    return Generated(template, written, data);
  }
}
