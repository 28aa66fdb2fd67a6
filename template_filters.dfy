/** The template filters `has_role`, `subtract`, `is_event_organizer` and
    `split` (events/templatetags/custom_filters.py; the first two are
    repeated verbatim in sac_project/templatetags/__init__.py). */
module TemplateFilters {
  import opened Wrappers
  import opened Text
  import opened UserModels

  /** `has_role(user, role_name)`. `roles` is None when the object has no
      `roles` attribute or it holds None. */
  function HasRole(roles: Option<seq<string>>, role: string): (r: bool)
    ensures r <==> roles.Some? && role in roles.value
  {
    if roles.None? || roles.value == [] then false
    else role in roles.value
  }

  /** A missing or empty role list never grants a role. */
  lemma HasRoleMissing(role: string)
    ensures !HasRole(None, role) && !HasRole(Some([]), role)
  {
  }

  /** The values a template hands to `subtract`: an integer, a string, or
      None. */
  datatype TemplateValue = IntValue(i: int) | StrValue(s: string) | NoneValue

  /** `int(v)`: None stands for the ValueError of a malformed string and the
      TypeError of None. */
  function AsInt(v: TemplateValue): (r: Option<int>)
    ensures v.IntValue? ==> r == Some(v.i)
    ensures v.NoneValue? ==> r.None?
  {
    match v
    case IntValue(i) => Some(i)
    case StrValue(s) => ParseInt(s)
    case NoneValue => None
  }

  /** `subtract(value, arg)` */
  function Subtract(value: TemplateValue, arg: TemplateValue): (r: int)
    ensures AsInt(value).Some? && AsInt(arg).Some? ==> r == AsInt(value).value - AsInt(arg).value
    ensures AsInt(value).None? || AsInt(arg).None? ==> r == 0
  {
    match (AsInt(value), AsInt(arg))
    case (Some(a), Some(b)) => a - b
    case _ => 0
  }

  /** Numbers rendered as text subtract like the numbers themselves. */
  lemma SubtractRoundTrip(a: int, b: int)
    ensures Subtract(StrValue(IntToString(a)), StrValue(IntToString(b))) == a - b
    ensures Subtract(IntValue(a), StrValue(IntToString(b))) == a - b
  {
    ParseIntRoundTrip(a);
    ParseIntRoundTrip(b);
  }

  /** A conversion failure on either side yields 0. */
  lemma SubtractFailsToZero(a: int)
    ensures Subtract(NoneValue, IntValue(a)) == 0 && Subtract(IntValue(a), NoneValue) == 0
    ensures Subtract(StrValue("abc"), IntValue(a)) == 0 && Subtract(IntValue(a), StrValue("")) == 0
  {
    assert Strip("abc") == "abc" by {
      assert TrimStart("abc") == "abc";
      assert TrimEnd("abc") == "abc";
    }
    assert !IsDigit("abc"[0]);
  }

  // ---------------------------------------------------------------------
  // is_event_organizer
  // ---------------------------------------------------------------------

  /** The requesting user: anonymous, or a logged-in user with an id. */
  datatype Viewer = Anonymous | Member(id: nat)

  /** What the filter reads of an event: its organizer ids, its club's
      coordinator ids (None when the event has no club) and its creator. */
  datatype EventLinks = EventLinks(organizers: set<nat>, clubCoordinators: Option<set<nat>>, createdBy: Option<nat>)

  /** `is_event_organizer(user, event)` */
  function IsEventOrganizer(viewer: Viewer, event: EventLinks): (r: bool)
    ensures viewer.Anonymous? ==> !r
    ensures viewer.Member? ==>
      (r <==> viewer.id in event.organizers
              || (event.clubCoordinators.Some? && viewer.id in event.clubCoordinators.value)
              || event.createdBy == Some(viewer.id))
  {
    match viewer
    case Anonymous => false
    case Member(id) =>
      if id in event.organizers then true
      else if event.clubCoordinators.Some? && id in event.clubCoordinators.value then true
      else if event.createdBy.Some? && event.createdBy.value == id then true
      else false
  }

  // ---------------------------------------------------------------------
  // split
  // ---------------------------------------------------------------------

  const DefaultSeparator: string := ","

  /** The first index at or after `from` where `sep` occurs in `s`. */
  function FindFrom(s: string, sep: string, from: nat): (k: Option<nat>)
    requires sep != []
    ensures k.Some? ==> from <= k.value && OccursAt(s, sep, k.value)
    ensures forall j :: from <= j && (k.None? || j < k.value) ==> !OccursAt(s, sep, j)
    decreases |s| - from
  {
    if from + |sep| > |s| then None
    else if s[from..from + |sep|] == sep then Some(from)
    else FindFrom(s, sep, from + 1)
  }

  /** `s.split(sep)` for a non-empty separator: the pieces between
      successive non-overlapping occurrences, scanning left to right. */
  function SplitOn(s: string, sep: string): (parts: seq<string>)
    requires sep != []
    ensures |parts| >= 1
    decreases |s|
  {
    match FindFrom(s, sep, 0)
    case None => [s]
    case Some(i) => [s[..i]] + SplitOn(s[i + |sep|..], sep)
  }

  /** `sep.join(parts)` */
  function Join(parts: seq<string>, sep: string): string {
    if parts == [] then ""
    else if |parts| == 1 then parts[0]
    else parts[0] + sep + Join(parts[1..], sep)
  }

  /** Joining the pieces with the separator gives back the string. */
  lemma {:induction false} JoinSplitOn(s: string, sep: string)
    requires sep != []
    ensures Join(SplitOn(s, sep), sep) == s
    decreases |s|
  {
    match FindFrom(s, sep, 0)
    case None =>
    case Some(i) =>
      var tail := s[i + |sep|..];
      var rest := SplitOn(tail, sep);
      JoinSplitOn(tail, sep);
      var parts := SplitOn(s, sep);
      assert parts == [s[..i]] + rest;
      assert |parts| >= 2 && parts[0] == s[..i] && parts[1..] == rest;
      assert Join(parts, sep) == s[..i] + sep + Join(rest, sep);
      assert s[i..i + |sep|] == sep;
      assert s == s[..i] + s[i..i + |sep|] + tail;
  }

  /** No piece contains the separator. */
  lemma {:induction false} SplitOnPiecesClean(s: string, sep: string)
    requires sep != []
    ensures forall p :: p in SplitOn(s, sep) ==> !Contains(p, sep)
    decreases |s|
  {
    match FindFrom(s, sep, 0)
    case None =>
    case Some(i) =>
      SplitOnPiecesClean(s[i + |sep|..], sep);
      var head := s[..i];
      forall j | 0 <= j <= |head| - |sep| ensures !OccursAt(head, sep, j) {
        assert head[j..j + |sep|] == s[j..j + |sep|];
        assert !OccursAt(s, sep, j);
      }
  }

  /** `split(value, separator)`: None stands for the ValueError Python
      raises for an empty separator. */
  function Split(value: Option<string>, separator: string): (r: Option<seq<string>>)
    ensures !Filled(value) ==> r == Some([])
    ensures Filled(value) ==> (r.None? <==> separator == "")
    ensures r.Some? && Filled(value) ==> |r.value| >= 1 && r.value != [""]
  {
    if Filled(value) then
      if separator == "" then None
      else
        JoinSplitOn(value.value, separator);
        Some(SplitOn(value.value, separator))
    else Some([])
  }

  /** For a non-empty value, joining what `split` returns gives the value
      back, and no piece contains the separator. */
  lemma SplitJoinRoundTrip(value: string, separator: string)
    requires value != "" && separator != ""
    ensures Split(Some(value), separator).Some?
    ensures Join(Split(Some(value), separator).value, separator) == value
    ensures forall p :: p in Split(Some(value), separator).value ==> !Contains(p, separator)
  {
    JoinSplitOn(value, separator);
    SplitOnPiecesClean(value, separator);
  }
}
