/**
 * SearchFilter: a search keyword type and the data it filters on, rendered
 * into the query string through the type's template, edited through a
 * dialog, and written to and read from a parcel.
 */
module SearchFilters {
  import opened Wrappers

  /** `FilterType`, in declaration order. */
  datatype FilterType = PostText | UserId | Username | MyUsername | Quoting | Before | After | ThreadId | InTitle

  /** `filterTemplate`: the query syntax of each type, with one `%s` for the value. */
  function Template(t: FilterType): string {
    match t
    case PostText => "%s"
    case UserId => "userid:%s"
    case Username => "username:\"%s\""
    case MyUsername => "username:\"%s\""
    case Quoting => "quoting:\"%s\""
    case Before => "before:\"%s\""
    case After => "since:\"%s\""
    case ThreadId => "threadid:%s"
    case InTitle => "intitle:\"%s\""
  }

  /**
   * `fixedValue`: only MyUsername has one, the user's own name from the
   * preferences, which is the parameter `myUsername` here.
   */
  function FixedValue(t: FilterType, myUsername: string): Option<string> {
    if t == MyUsername then Some(myUsername) else None
  }

  /** `editable = fixedValue == null`. */
  predicate Editable(t: FilterType) {
    FixedValue(t, "").None?
  }

  lemma OnlyMyUsernameFixed(t: FilterType, name: string)
    ensures Editable(t) <==> t != MyUsername
    ensures FixedValue(t, name).Some? <==> !Editable(t)
  {
  }

  /** `String.format` with one string argument on a template: its first `%s` becomes `v`. */
  function Format(template: string, v: string): string
    decreases |template|
  {
    if |template| < 2 then template
    else if template[..2] == "%s" then v + template[2..]
    else [template[0]] + Format(template[1..], v)
  }

  /** The text of a template before and after its `%s`. */
  function Prefix(t: FilterType): string {
    match t
    case PostText => ""
    case UserId => "userid:"
    case Username => "username:\""
    case MyUsername => "username:\""
    case Quoting => "quoting:\""
    case Before => "before:\""
    case After => "since:\""
    case ThreadId => "threadid:"
    case InTitle => "intitle:\""
  }

  function Suffix(t: FilterType): string {
    if t in {PostText, UserId, ThreadId} then "" else "\""
  }

  /** Formatting a prefix free of `%`, a `%s` and a suffix puts the value between the two. */
  lemma {:induction false} FormatSplits(pre: string, post: string, v: string)
    requires forall i :: 0 <= i < |pre| ==> pre[i] != '%'
    ensures Format(pre + "%s" + post, v) == pre + v + post
    decreases |pre|
  {
    var t := pre + "%s" + post;
    if pre == [] {
      assert t == "%s" + post;
      assert t[..2] == "%s";
      assert t[2..] == post;
    } else {
      assert t[0] == pre[0];
      assert t[..2] != "%s" by { assert t[..2][0] == pre[0]; }
      assert t[1..] == pre[1..] + "%s" + post;
      FormatSplits(pre[1..], post, v);
      assert Format(t, v) == [t[0]] + Format(t[1..], v);
      assert [pre[0]] + pre[1..] == pre;
    }
  }

  /** Every template is its prefix, `%s` and its suffix, so formatting puts the value in between. */
  lemma TemplateFormat(t: FilterType, v: string)
    ensures Format(Template(t), v) == Prefix(t) + v + Suffix(t)
  {
    TemplateSplits(t);
    FormatSplits(Prefix(t), Suffix(t), v);
  }

  lemma TemplateSplits(t: FilterType)
    ensures Template(t) == Prefix(t) + "%s" + Suffix(t)
    ensures forall i :: 0 <= i < |Prefix(t)| ==> Prefix(t)[i] != '%'
  {
    match t
    case PostText =>
    case UserId =>
    case Username =>
    case MyUsername =>
    case Quoting =>
    case Before =>
    case After =>
    case ThreadId =>
    case InTitle =>
  }

  /** `SearchFilter(type, param)`. */
  datatype SearchFilter = SearchFilter(kind: FilterType, param: string)

  /** `toString`: the template filled with the fixed value when the type has one, else with `param`. */
  function ToString(f: SearchFilter, myUsername: string): (r: string)
    ensures r == Prefix(f.kind) + (if f.kind == MyUsername then myUsername else f.param) + Suffix(f.kind)
  {
    var v := match FixedValue(f.kind, myUsername) case Some(x) => x case None => f.param;
    TemplateFormat(f.kind, v);
    Format(Template(f.kind), v)
  }

  lemma ToStringExamples(p: string, me: string)
    ensures ToString(SearchFilter(PostText, p), me) == p
    ensures ToString(SearchFilter(UserId, p), me) == "userid:" + p
    ensures ToString(SearchFilter(Username, p), me) == "username:\"" + p + "\""
    ensures ToString(SearchFilter(MyUsername, p), me) == "username:\"" + me + "\""
  {
  }

  /**
   * `edit`: for an editable type a dialog opens pre-filled with `param`;
   * confirming it with `entered` gives a filter of the same type with the
   * new text (`None` is a dialog that was dismissed or could not open).
   * A non-editable filter is left alone.
   */
  function Edit(f: SearchFilter, entered: Option<string>): (r: Option<SearchFilter>)
    ensures !Editable(f.kind) ==> r.None?
    ensures r.Some? <==> Editable(f.kind) && entered.Some?
    ensures r.Some? ==> r.value == SearchFilter(f.kind, entered.value)
  {
    if Editable(f.kind) && entered.Some? then Some(SearchFilter(f.kind, entered.value)) else None
  }

  /**
   * `FilterType.showDialog`: an editable type asks for the text in a dialog;
   * a non-editable one adds a filter carrying its fixed value at once.
   */
  function ShowDialog(t: FilterType, entered: Option<string>, myUsername: string): (r: Option<SearchFilter>)
    ensures !Editable(t) ==> r == Some(SearchFilter(t, myUsername))
    ensures Editable(t) ==> (r.Some? <==> entered.Some?)
    ensures Editable(t) && r.Some? ==> r.value == SearchFilter(t, entered.value)
  {
    match FixedValue(t, myUsername)
    case Some(v) => Some(SearchFilter(t, v))
    case None => if entered.Some? then Some(SearchFilter(t, entered.value)) else None
  }

  /** The filter a dialog adds renders with the text entered (or the fixed name). */
  lemma ShowDialogRenders(t: FilterType, entered: string, myUsername: string)
    ensures var f := ShowDialog(t, Some(entered), myUsername).value;
      ToString(f, myUsername) == Prefix(t) + (if Editable(t) then entered else myUsername) + Suffix(t)
  {
  }

  // ---------------------------------------------------------------------
  // Parcels
  // ---------------------------------------------------------------------

  /** A value in a parcel: an int, or a string that may be null. */
  datatype ParcelValue = PInt(i: int) | PString(s: Option<string>)

  /** `FilterType.values()`. */
  const Values: seq<FilterType> := [PostText, UserId, Username, MyUsername, Quoting, Before, After, ThreadId, InTitle]

  /** `ordinal`: the type's position in declaration order. */
  function Ordinal(t: FilterType): (r: nat)
    ensures r < |Values| && Values[r] == t
  {
    match t
    case PostText => 0
    case UserId => 1
    case Username => 2
    case MyUsername => 3
    case Quoting => 4
    case Before => 5
    case After => 6
    case ThreadId => 7
    case InTitle => 8
  }

  /** `writeToParcel`: the type's ordinal, then `param`. */
  function WriteToParcel(f: SearchFilter): seq<ParcelValue> {
    [PInt(Ordinal(f.kind)), PString(Some(f.param))]
  }

  /** Why reading a filter back can fail. */
  datatype ParcelError = BadOrdinal | NullParam | Malformed

  /**
   * The parcel constructor: `values()[readInt()]` (out of bounds for an
   * unknown ordinal), then `readString()`, which must not be null for the
   * non-null `param`. The rest of the parcel is returned.
   */
  function ReadFromParcel(p: seq<ParcelValue>): (r: Result<(SearchFilter, seq<ParcelValue>), ParcelError>)
    ensures r.Success? ==> |p| >= 2 && r.value.1 == p[2..]
    ensures r.Success? ==> p[0] == PInt(Ordinal(r.value.0.kind)) && p[1] == PString(Some(r.value.0.param))
  {
    if |p| < 2 || !p[0].PInt? || !p[1].PString? then Failure(Malformed)
    else if !(0 <= p[0].i < |Values|) then Failure(BadOrdinal)
    else if p[1].s.None? then Failure(NullParam)
    else
      OrdinalOfValue(p[0].i);
      Success((SearchFilter(Values[p[0].i], p[1].s.value), p[2..]))
  }

  lemma OrdinalOfValue(i: int)
    requires 0 <= i < |Values|
    ensures Ordinal(Values[i]) == i
  {
  }

  /** Writing a filter and reading it back gives the same type and param, and leaves the rest of the parcel. */
  lemma ParcelRoundTrip(f: SearchFilter, rest: seq<ParcelValue>)
    ensures ReadFromParcel(WriteToParcel(f) + rest) == Success((f, rest))
  {
    var p := WriteToParcel(f) + rest;
    assert p[2..] == rest;
  }

  /** Every parcel that reads as a filter is that filter's own written form, followed by the rest. */
  lemma ParcelReadIsWritten(p: seq<ParcelValue>)
    requires ReadFromParcel(p).Success?
    ensures var (f, rest) := ReadFromParcel(p).value; p == WriteToParcel(f) + rest
  {
    var (f, rest) := ReadFromParcel(p).value;
    assert p == p[..2] + p[2..];
  }
}
