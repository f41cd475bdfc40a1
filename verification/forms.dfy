/** The request data a handler reads: the posted form (a werkzeug `MultiDict`,
    where one name may carry several values) and the uploaded files. */
module Forms {

  import opened Replies
  import opened Text
  import opened ReplayStore

  /** Field name to the values posted under it, in order. */
  type Form = map<string, seq<string>>

  /** `postdata.getlist(name)`. */
  function GetList(form: Form, name: string): (r: seq<string>)
    ensures name !in form ==> r == []
    ensures name in form ==> r == form[name]
  {
    if name in form then form[name] else []
  }

  /** `postdata.get(name, default)`: the first value, or the default. A field that
      is absent reads as `default`; every check that follows an absent `get` with
      no default (`not x`) treats `None` and "" alike, so those callers pass "". */
  function Get(form: Form, name: string, default: string): (r: string)
    ensures |GetList(form, name)| > 0 ==> r == GetList(form, name)[0]
    ensures |GetList(form, name)| == 0 ==> r == default
  {
    if name in form && |form[name]| > 0 then form[name][0] else default
  }

  /** `"%s_%d" % (prefix, n)`, the numbered field names such as `winner_3`. */
  function Numbered(prefix: string, n: int): string {
    prefix + "_" + IntToString(n)
  }

  /** Distinct numbers give distinct field names. */
  lemma NumberedInjective(prefix: string, a: int, b: int)
    requires Numbered(prefix, a) == Numbered(prefix, b)
    ensures a == b
  {
    var pa := prefix + "_";
    assert Numbered(prefix, a) == pa + IntToString(a);
    assert Numbered(prefix, b) == pa + IntToString(b);
    assert IntToString(a) == Numbered(prefix, a)[|pa|..];
    assert IntToString(b) == Numbered(prefix, b)[|pa|..];
    IntToStringInjective(a, b);
  }

  /** A required integer field read through the idiom
      `v = getlist(name); if len(v) != 1 or not v[0]: ...; int(v[0])`. */
  datatype IntField = Unsupplied | Unparsable | Supplied(value: int)

  function ReadIntField(form: Form, name: string): (r: IntField)
    ensures r.Unsupplied? <==> (|GetList(form, name)| != 1 || GetList(form, name)[0] == "")
    ensures r.Supplied? ==> ParseInt(GetList(form, name)[0]) == Some(r.value)
    ensures r.Unparsable? ==> ParseInt(GetList(form, name)[0]).None?
  {
    var values := GetList(form, name);
    if |values| != 1 || values[0] == "" then Unsupplied
    else match ParseInt(values[0])
      case None => Unparsable
      case Some(v) => Supplied(v)
  }

  /** An uploaded file as werkzeug hands it over; it counts as present only when
      its file name is non-empty (`FileStorage` is falsy otherwise). */
  datatype Upload = Upload(filename: string, content: Bytes)

  type Files = map<string, Upload>

  /** The bytes of the upload in field `name`, when one was chosen. */
  function UploadedBytes(files: Files, name: string): (r: Option<Bytes>)
    ensures r.Some? <==> name in files && files[name].filename != ""
    ensures r.Some? ==> r.value == files[name].content
  {
    if name in files && files[name].filename != "" then Some(files[name].content) else None
  }
}
