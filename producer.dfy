/**
 * The producer: `enqueue_jobs` with its `build_row` closure and the count
 * check of `main`. The id-assigning `create_jobs` that receives the builder
 * is not part of this model; it is a parameter.
 */
module Producer {
  import opened Wrappers
  import opened Strings

  const DefaultTemplate := "Telephone conversation #{id}"

  /** The content `build_row` gives a new job; the id is assigned by `create_jobs`. */
  datatype NewRow = NewRow(status: string, createdAt: string, updatedAt: string, description: string)

  /** `{id}` starts at position `i` of `t`. */
  predicate PlaceholderAt(t: string, i: int)
  {
    0 <= i && i + 4 <= |t| && t[i..i + 4] == "{id}"
  }

  /** `template.format(id=jobId)`: every `{id}`, scanning left to right, replaced by `str(jobId)`. */
  function Format(template: string, jobId: int): string
    decreases |template|
  {
    if PlaceholderAt(template, 0) then IntToString(jobId) + Format(template[4..], jobId)
    else if template == [] then []
    else [template[0]] + Format(template[1..], jobId)
  }

  /** A template without `{id}` is used as it is. */
  lemma {:induction false} FormatWithoutPlaceholder(t: string, jobId: int)
    requires forall i :: !PlaceholderAt(t, i)
    ensures Format(t, jobId) == t
    decreases |t|
  {
    if t != [] {
      assert !PlaceholderAt(t, 0);
      forall i ensures !PlaceholderAt(t[1..], i) {
        if PlaceholderAt(t[1..], i) {
          assert PlaceholderAt(t, i + 1);
        }
      }
      FormatWithoutPlaceholder(t[1..], jobId);
      assert [t[0]] + t[1..] == t;
    }
  }

  /** Text without `{` holds no `{id}`. */
  lemma NoBraceNoPlaceholder(t: string)
    requires '{' !in t
    ensures forall i :: !PlaceholderAt(t, i)
  {
    forall i ensures !PlaceholderAt(t, i) {
      if 0 <= i < |t| {
        assert t[i] in t;
      }
    }
  }

  /** A text not starting with `{id}` still does not once `{id}` and more text follow it. */
  lemma NoPlaceholderBefore(p: string, s: string)
    requires p != [] && !PlaceholderAt(p, 0)
    ensures !PlaceholderAt(p + "{id}" + s, 0)
  {
    var t := p + "{id}" + s;
    assert forall k :: 0 <= k < |p| ==> t[k] == p[k];
    assert t[|p|] == '{';
  }

  /** `{id}` in a template becomes the id, whatever text surrounds it. */
  lemma {:induction false} FormatAroundPlaceholder(p: string, s: string, jobId: int)
    ensures Format(p + "{id}" + s, jobId) == Format(p, jobId) + IntToString(jobId) + Format(s, jobId)
    decreases |p|
  {
    if p == [] {
      var t := p + "{id}" + s;
      assert t == "{id}" + s && PlaceholderAt(t, 0);
      assert t[4..] == s;
    } else if PlaceholderAt(p, 0) {
      FormatAroundPlaceholder(p[4..], s, jobId);
      FormatAroundLeadingPlaceholder(p, s, jobId);
    } else {
      FormatAroundPlaceholder(p[1..], s, jobId);
      FormatAroundLeadingChar(p, s, jobId);
    }
  }

  /** The step of `FormatAroundPlaceholder` when the text before starts with its own `{id}`. */
  lemma FormatAroundLeadingPlaceholder(p: string, s: string, jobId: int)
    requires PlaceholderAt(p, 0)
    requires Format(p[4..] + "{id}" + s, jobId) == Format(p[4..], jobId) + IntToString(jobId) + Format(s, jobId)
    ensures Format(p + "{id}" + s, jobId) == Format(p, jobId) + IntToString(jobId) + Format(s, jobId)
  {
    var t := p + "{id}" + s;
    SplitAfterPrefix(p, "{id}", s, 4);
    assert PlaceholderAt(t, 0);
    FormatPlaceholderStep(t, jobId);
    FormatPlaceholderStep(p, jobId);
    AppendAssoc(IntToString(jobId), Format(p[4..], jobId), IntToString(jobId), Format(s, jobId));
  }

  /** A template that starts with `{id}` begins with the id. */
  lemma FormatPlaceholderStep(t: string, jobId: int)
    requires PlaceholderAt(t, 0)
    ensures Format(t, jobId) == IntToString(jobId) + Format(t[4..], jobId)
  {
  }

  /** A template that does not start with `{id}` keeps its first character. */
  lemma FormatOrdinaryStep(t: string, jobId: int)
    requires t != [] && !PlaceholderAt(t, 0)
    ensures Format(t, jobId) == [t[0]] + Format(t[1..], jobId)
  {
  }

  /** Dropping `k` characters of `p + m + s` that all lie in `p`. */
  lemma SplitAfterPrefix(p: string, m: string, s: string, k: nat)
    requires k <= |p|
    ensures (p + m + s)[..k] == p[..k] && (p + m + s)[k..] == p[k..] + m + s
  {
  }

  lemma AppendAssoc(a: string, b: string, c: string, d: string)
    ensures a + (b + c + d) == (a + b) + c + d
  {
  }

  /** The step of `FormatAroundPlaceholder` when the text before starts with an ordinary character. */
  lemma FormatAroundLeadingChar(p: string, s: string, jobId: int)
    requires p != [] && !PlaceholderAt(p, 0)
    requires Format(p[1..] + "{id}" + s, jobId) == Format(p[1..], jobId) + IntToString(jobId) + Format(s, jobId)
    ensures Format(p + "{id}" + s, jobId) == Format(p, jobId) + IntToString(jobId) + Format(s, jobId)
  {
    var t := p + "{id}" + s;
    NoPlaceholderBefore(p, s);
    SplitAfterPrefix(p, "{id}", s, 1);
    assert t[0] == t[..1][0] == p[..1][0] == p[0];
    FormatOrdinaryStep(t, jobId);
    FormatOrdinaryStep(p, jobId);
    AppendAssoc([p[0]], Format(p[1..], jobId), IntToString(jobId), Format(s, jobId));
  }

  /** `description_template or "Telephone conversation #{id}"`: a missing or empty template falls back to the default. */
  function ChooseTemplate(template: Option<string>): (t: string)
    ensures template.Some? && template.value != "" ==> t == template.value
    ensures template.None? || template.value == "" ==> t == DefaultTemplate
  {
    if template.Some? && template.value != "" then template.value else DefaultTemplate
  }

  /** `build_row`: the given status, one timestamp for both created and updated, the template filled with the id. */
  function BuildRow(template: string, status: string, jobId: int, timestamp: string): NewRow
  {
    NewRow(status, timestamp, timestamp, Format(template, jobId))
  }

  /** The builder `enqueue_jobs` hands to `create_jobs`; `utc_now()` becomes its second argument. */
  function RowBuilder(template: Option<string>, status: string): (build: (int, string) -> NewRow)
    ensures forall jobId, timestamp :: build(jobId, timestamp).status == status
    ensures forall jobId, timestamp :: build(jobId, timestamp).createdAt == build(jobId, timestamp).updatedAt == timestamp
    ensures forall jobId, timestamp ::
      build(jobId, timestamp).description == Format(ChooseTemplate(template), jobId)
  {
    (jobId: int, timestamp: string) => BuildRow(ChooseTemplate(template), status, jobId, timestamp)
  }

  /** `enqueue_jobs`: the ids `create_jobs` assigns to `count` rows from the builder. */
  function EnqueueJobs(count: int, template: Option<string>, status: string,
                       createJobs: (int, (int, string) -> NewRow) -> seq<int>): seq<int>
  {
    createJobs(count, RowBuilder(template, status))
  }

  /** The producer's `main`: a count of zero or less exits before anything is enqueued. */
  function ProducerMain(count: int, template: Option<string>, status: string,
                        createJobs: (int, (int, string) -> NewRow) -> seq<int>): (r: Result<seq<int>, string>)
    ensures r.Err? <==> count <= 0
    ensures r.Err? ==> r.error == "Count must be a positive integer."
    ensures r.Ok? ==> r.value == createJobs(count, RowBuilder(template, status))
  {
    if count <= 0 then Err("Count must be a positive integer.")
    else Ok(EnqueueJobs(count, template, status, createJobs))
  }

  /** A brace-free prefix followed by `{id}`, the shape of the default template, becomes the prefix and the id. */
  lemma FormatPrefixThenPlaceholder(prefix: string, jobId: int)
    requires '{' !in prefix
    ensures Format(prefix + "{id}", jobId) == prefix + IntToString(jobId)
  {
    NoBraceNoPlaceholder(prefix);
    FormatWithoutPlaceholder(prefix, jobId);
    assert prefix + "{id}" == prefix + "{id}" + "";
    FormatAroundPlaceholder(prefix, "", jobId);
    assert prefix + IntToString(jobId) + "" == prefix + IntToString(jobId);
  }

  /** What the default template puts before the placeholder. */
  const DefaultPrefix := "Telephone conversation #"

  /** The default template's prefix holds no brace. */
  lemma DefaultPrefixBraceFree()
    ensures '{' !in DefaultPrefix
  {
    assert forall i :: 0 <= i < |DefaultPrefix| ==> DefaultPrefix[i] != '{';
  }

  /** With no template, or an empty one, job 7's description is "Telephone conversation #7". */
  lemma DefaultTemplateExample()
    ensures Format(ChooseTemplate(None), 7) == "Telephone conversation #7"
    ensures Format(ChooseTemplate(Some("")), 7) == "Telephone conversation #7"
  {
    var prefix := DefaultPrefix;
    DefaultPrefixBraceFree();
    assert DefaultTemplate == prefix + "{id}";
    FormatPrefixThenPlaceholder(prefix, 7);
    assert IntToString(7) == "7";
  }

  /** The template "Job #{id}" gives "Job #1" for job 1. */
  lemma CustomTemplateExample()
    ensures Format(ChooseTemplate(Some("Job #{id}")), 1) == "Job #1"
  {
    var prefix := "Job #";
    assert "Job #{id}" == prefix + "{id}";
    assert '{' !in prefix by {
      assert forall i :: 0 <= i < |prefix| ==> prefix[i] != '{';
    }
    FormatPrefixThenPlaceholder(prefix, 1);
    assert IntToString(1) == "1";
  }
}
