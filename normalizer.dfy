/**
 * What a template route (app.py:289-337) hands to its template: the saved
 * document's `data` normalised to twelve keys with defaults, the photo fields and
 * the initials lifted out of it, the three escaping helpers, and, for templates
 * 1, 5, 6, 7 and 8 only, the ten record fields bound again under their own names.
 *
 * The saved path kept in the session (`last_resume_file`) and the files on disk
 * are parameters; reading and parsing the file is the lookup `files[path]`.
 */
module RenderNormalizer {
  import opened Wrappers
  import opened JsonValues
  import opened Sanitizer
  import opened FormAssembler

  const TextKeys: set<string> := {"name", "title", "email", "phone", "address", "summary"}

  const ListKeys: set<string> := {"skills", "languages", "experience", "education"}

  /** The twelve keys a template can rely on. */
  const NormalizedKeys: set<string> := TextKeys + ListKeys + {"photo", "photo_exists"}

  /** The default `normalized_data` uses for a key the document lacks. */
  function DefaultFor(key: string): Json {
    if key in TextKeys then JStr("")
    else if key in ListKeys then JArr([])
    else if key == "photo_exists" then JBool(false)
    else JNull
  }

  /** `normalized_data`: the twelve keys, each copied from `d` when present and defaulted
      otherwise ("" for text, [] for lists, None for the photo, False for `photo_exists`);
      any other key of `d` is dropped. */
  function Normalize(d: map<string, Json>): (n: map<string, Json>)
    ensures n.Keys == NormalizedKeys
    ensures forall k :: k in NormalizedKeys && k in d ==> n[k] == d[k]
    ensures forall k :: k in TextKeys && k !in d ==> n[k] == JStr("")
    ensures forall k :: k in ListKeys && k !in d ==> n[k] == JArr([])
    ensures "photo" !in d ==> n["photo"] == JNull
    ensures "photo_exists" !in d ==> n["photo_exists"] == JBool(false)
  {
    map k | k in NormalizedKeys :: Get(d, k, DefaultFor(k))
  }

  /** Normalising twice is normalising once. */
  lemma NormalizeIdempotent(d: map<string, Json>)
    ensures Normalize(Normalize(d)) == Normalize(d)
  {
    var n := Normalize(d);
    assert Normalize(n).Keys == n.Keys;
    forall k | k in n.Keys ensures Normalize(n)[k] == n[k] {
    }
  }

  /** `generate` writes every normalised key except `photo`, which it writes only when set. */
  lemma StoredKeysCover()
    ensures NormalizedKeys - {"photo"} <= StoredKeys && "photo" !in StoredKeys && "photo" in NormalizedKeys
    ensures "name" in NormalizedKeys && "photo_exists" in NormalizedKeys && "skills" in NormalizedKeys
  {
    forall k | k in NormalizedKeys - {"photo"} ensures k in StoredKeys {
    }
  }

  /** A record written by `generate` comes back unchanged: every normalised key it stored is
      read back as stored, the photo as null when none was recorded. */
  lemma NormalizeStoredRecord(d: ResumeData)
    ensures forall k :: k in NormalizedKeys && k in DataObject(d) ==> Normalize(DataObject(d))[k] == DataObject(d)[k]
    ensures NormalizedKeys - {"photo"} <= DataObject(d).Keys
    ensures Normalize(DataObject(d))["photo"] == if d.photo.Some? then JStr(d.photo.value) else JNull
    ensures Normalize(DataObject(d))["name"] == JStr(d.name)
    ensures Normalize(DataObject(d))["photo_exists"] == JBool(d.photoExists)
  {
    var r := DataObject(d);
    StoredKeysCover();
    assert StoredKeys <= r.Keys;
  }

  /** `payload.get("data", {})`, which needs a JSON object both for the payload and for the
      value found (any other shape raises when `.get` is called on it). */
  function DataOf(payload: Json): (r: Option<map<string, Json>>)
    ensures r.Some? <==> payload.JObj? && ("data" in payload.fields ==> payload.fields["data"].JObj?)
    ensures r.Some? ==> r.value == if "data" in payload.fields then payload.fields["data"].fields else map[]
  {
    if !payload.JObj? then None
    else if "data" !in payload.fields then Some(map[])
    else if payload.fields["data"].JObj? then Some(payload.fields["data"].fields)
    else None
  }

  /** The document `generate` writes yields the record's data object. */
  lemma DataOfDocument(resumeId: string, userId: string, d: ResumeData)
    ensures DataOf(ResumeDocument(resumeId, userId, d)) == Some(DataObject(d))
  {
  }

  /** `initials(name)` on whatever JSON value the name field holds: a falsy value gives "",
      a string its initials, and any other value has no `split` and fails. */
  function InitialsOf(v: Json): (r: Option<string>)
    ensures !Truthy(v) ==> r == Some("")
    ensures v.JStr? ==> r == Some(Initials(Some(v.s)))
    ensures Truthy(v) && !v.JStr? ==> r == None
  {
    InitialsEmpty(Some(""));
    if !Truthy(v) then Some("")
    else if v.JStr? then Some(Initials(Some(v.s)))
    else None
  }

  /** The helpers the context exposes as callables. */
  datatype Helper = EscapeHelper | RenderInlineHelper | RenderHtmlHelper

  /** A context entry: a JSON value, or one of the helpers. */
  datatype Binding = Value(v: Json) | Callable(helper: Helper)

  datatype ViewError =
    | NoResume        // no saved path in the session: 400
    | ResumeNotFound  // the saved path names no file: 400
    | Malformed       // the saved document has a shape the route cannot handle

  /** The templates that also receive the record's fields as separate variables. */
  const FlatTemplates: set<string> := {"template1", "template5", "template6", "template7", "template8"}

  /** The ten fields bound again under their own names. */
  const FlatKeys: set<string> := TextKeys + ListKeys

  const BaseKeys: set<string> := {"data", "photo", "photo_exists", "initials", "e", "render_inline", "render_html"}

  lemma KeysDisjoint()
    ensures BaseKeys !! FlatKeys
  {
  }

  /** The update for the templates that want the fields separately: each of the ten fields
      under its own name, with the normalised value. */
  function FieldBindings(n: map<string, Json>): (b: map<string, Binding>)
    requires FlatKeys <= n.Keys
    ensures b.Keys == FlatKeys && forall k :: k in FlatKeys ==> b[k] == Value(n[k])
  {
    map k | k in FlatKeys :: Value(n[k])
  }

  /** `context` before the update: the normalised data, its photo fields, the initials and
      the three helpers. */
  function BaseContext(n: map<string, Json>, initials: string): (c: map<string, Binding>)
    ensures c.Keys == BaseKeys
    ensures c["data"] == Value(JObj(n)) && c["initials"] == Value(JStr(initials))
    ensures c["photo"] == Value(Get(n, "photo", JNull)) && c["photo_exists"] == Value(Get(n, "photo_exists", JBool(false)))
    ensures c["e"] == Callable(EscapeHelper) && c["render_inline"] == Callable(RenderInlineHelper)
    ensures c["render_html"] == Callable(RenderHtmlHelper)
  {
    map[
      "data" := Value(JObj(n)),
      "photo" := Value(Get(n, "photo", JNull)),
      "photo_exists" := Value(Get(n, "photo_exists", JBool(false))),
      "initials" := Value(JStr(initials)),
      "e" := Callable(EscapeHelper),
      "render_inline" := Callable(RenderInlineHelper),
      "render_html" := Callable(RenderHtmlHelper)]
  }

  /** The context for `template` built from the saved data `d`. */
  predicate IsTemplateContext(ctx: map<string, Binding>, template: string, d: map<string, Json>) {
    var n := Normalize(d);
    && ctx.Keys == BaseKeys + (if template in FlatTemplates then FlatKeys else {})
    && ctx["data"] == Value(JObj(n))
    && ctx["photo"] == Value(n["photo"])
    && ctx["photo_exists"] == Value(n["photo_exists"])
    && InitialsOf(n["name"]).Some?
    && ctx["initials"] == Value(JStr(InitialsOf(n["name"]).value))
    && ctx["e"] == Callable(EscapeHelper)
    && ctx["render_inline"] == Callable(RenderInlineHelper)
    && ctx["render_html"] == Callable(RenderHtmlHelper)
    && (template in FlatTemplates ==> forall k :: k in FlatKeys ==> ctx[k] == Value(n[k]))
  }

  /** Build `context`, then `context.update(...)` for the templates that want the fields
      bound separately. Fails only when the stored name is truthy but not a string, which has
      no `split`; a missing or blank name gives empty initials. */
  method BuildContext(template: string, d: map<string, Json>) returns (r: Result<map<string, Binding>, ViewError>)
    ensures r.Ok? <==> InitialsOf(Normalize(d)["name"]).Some?
    ensures r.Ok? ==> IsTemplateContext(r.value, template, d)
    ensures r.Err? ==> r.error == Malformed
  {
    var n := Normalize(d);
    KeysDisjoint();
    var initials := InitialsOf(n["name"]);
    if initials.None? {
      return Err(Malformed);
    }
    var context := BaseContext(n, initials.value);
    if template in FlatTemplates {
      context := context + FieldBindings(n);
    }
    return Ok(context);
  }

  /** A template route: follow the saved path kept in the session to the document, then build the
      context from its data. */
  method TemplateView(template: string, savedPath: Option<string>, files: map<string, Json>)
    returns (r: Result<map<string, Binding>, ViewError>)
    ensures savedPath == None || savedPath == Some("") ==> r == Err(NoResume)
    ensures savedPath.Some? && savedPath.value != "" && savedPath.value !in files ==> r == Err(ResumeNotFound)
    ensures savedPath.Some? && savedPath.value != "" && savedPath.value in files && DataOf(files[savedPath.value]).None?
      ==> r == Err(Malformed)
    ensures r.Ok? <==> && savedPath.Some? && savedPath.value != "" && savedPath.value in files && DataOf(files[savedPath.value]).Some?
                       && InitialsOf(Normalize(DataOf(files[savedPath.value]).value)["name"]).Some?
    ensures r.Ok? ==> IsTemplateContext(r.value, template, DataOf(files[savedPath.value]).value)
  {
    if savedPath.None? || savedPath.value == "" {
      return Err(NoResume);
    }
    if savedPath.value !in files {
      return Err(ResumeNotFound);
    }
    var d := DataOf(files[savedPath.value]);
    if d.None? {
      return Err(Malformed);
    }
    r := BuildContext(template, d.value);
  }

  /** Each field variable a template receives is the `data` field of the same name, and the
      fields are bound exactly for templates 1, 5, 6, 7 and 8. */
  lemma FlatBindingsMatchData(ctx: map<string, Binding>, template: string, d: map<string, Json>)
    requires IsTemplateContext(ctx, template, d)
    ensures forall k :: k in FlatKeys ==> (k in ctx <==> template in FlatTemplates)
    ensures forall k :: k in FlatKeys && k in ctx ==> ctx[k] == Value(ctx["data"].v.fields[k])
  {
    KeysDisjoint();
  }

  /** The lifted photo fields and initials agree with the normalised data. */
  lemma ContextAgreesWithData(ctx: map<string, Binding>, template: string, d: map<string, Json>)
    requires IsTemplateContext(ctx, template, d)
    ensures ctx["photo"] == Value(ctx["data"].v.fields["photo"])
    ensures ctx["photo_exists"] == Value(ctx["data"].v.fields["photo_exists"])
    ensures "name" in d && d["name"].JStr? ==> ctx["initials"] == Value(JStr(Initials(Some(d["name"].s))))
    ensures "name" !in d ==> ctx["initials"] == Value(JStr(""))
  {
  }

  /** The stored skills are the JSON list of the record's skills. */
  lemma SkillsStored(data: ResumeData)
    ensures "skills" in DataObject(data) && DataObject(data)["skills"] == StringList(data.skills)
  {
  }

  /** The context built from a record `generate` stored shows that record. */
  lemma StoredRecordContext(ctx: map<string, Binding>, template: string, data: ResumeData)
    requires IsTemplateContext(ctx, template, DataObject(data))
    ensures ctx["initials"] == Value(JStr(Initials(Some(data.name))))
    ensures ctx["photo_exists"] == Value(JBool(data.photoExists))
    ensures ctx["photo"] == Value(if data.photo.Some? then JStr(data.photo.value) else JNull)
    ensures template in FlatTemplates ==> ctx["name"] == Value(JStr(data.name)) && ctx["skills"] == Value(StringList(data.skills))
    ensures template in FlatTemplates ==> forall k :: k in FlatKeys ==> ctx[k] == Value(DataObject(data)[k])
  {
    var n := Normalize(DataObject(data));
    NormalizeStoredRecord(data);
    StoredKeysCover();
    if template in FlatTemplates {
      SkillsStored(data);
      assert "name" in FlatKeys && "skills" in FlatKeys;
      assert ctx["name"] == Value(n["name"]) && ctx["skills"] == Value(n["skills"]);
      forall k | k in FlatKeys ensures ctx[k] == Value(DataObject(data)[k]) {
        assert k in NormalizedKeys - {"photo"};
        assert ctx[k] == Value(n[k]);
      }
    }
  }

  /** End to end: the view of a document `generate` wrote shows the submitted record. */
  lemma GeneratedResumeRenders(ctx: map<string, Binding>, template: string, resumeId: string, userId: string,
                               data: ResumeData)
    requires IsTemplateContext(ctx, template, DataOf(ResumeDocument(resumeId, userId, data)).value)
    ensures ctx["initials"] == Value(JStr(Initials(Some(data.name))))
    ensures ctx["photo_exists"] == Value(JBool(data.photoExists))
    ensures ctx["photo"] == Value(if data.photo.Some? then JStr(data.photo.value) else JNull)
    ensures template in FlatTemplates ==> ctx["name"] == Value(JStr(data.name)) && ctx["skills"] == Value(StringList(data.skills))
    ensures template in FlatTemplates ==> forall k :: k in FlatKeys ==> ctx[k] == Value(DataObject(data)[k])
  {
    DataOfDocument(resumeId, userId, data);
    StoredRecordContext(ctx, template, data);
  }
}
