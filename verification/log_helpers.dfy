/** The activity-log helpers of the front end
    (campaign-manager-frontend/src/utils/LogHelpers.js) and the log viewer's
    own colour rule (components/logs/ActivityLogViewer.jsx). */
module LogHelpers {
  import opened Values
  import opened Strings
  import opened Decimal

  datatype Category = Create | Update | Delete | Authentication | View | Other

  /** The string `getActionCategory` returns. */
  function CategoryName(c: Category): string {
    match c
    case Create => "create"
    case Update => "update"
    case Delete => "delete"
    case Authentication => "auth"
    case View => "view"
    case Other => "other"
  }

  /** `getActionCategory(action)`: the first keyword test that succeeds. */
  function ActionCategory(action: string): Category {
    if Contains(action, "create") then Create
    else if Contains(action, "update") || Contains(action, "edit") then Update
    else if Contains(action, "delete") then Delete
    else if Contains(action, "login") || Contains(action, "logout") then Authentication
    else if Contains(action, "view") || Contains(action, "list") then View
    else Other
  }

  /** The keyword table in priority order. */
  const CategoryRules: seq<(string, Category)> := [
    ("create", Create), ("update", Update), ("edit", Update), ("delete", Delete),
    ("login", Authentication), ("logout", Authentication), ("view", View), ("list", View)]

  /** The index of the first rule whose keyword occurs in `action`, or
      `|rules|` when none does. */
  function FirstMatch(rules: seq<(string, Category)>, action: string): (i: nat)
    ensures i <= |rules|
    ensures i < |rules| ==> Contains(action, rules[i].0)
    ensures forall j :: 0 <= j < i ==> !Contains(action, rules[j].0)
  {
    if |rules| == 0 || Contains(action, rules[0].0) then 0
    else
      var i := 1 + FirstMatch(rules[1..], action);
      assert forall j :: 1 <= j < i ==> rules[j] == rules[1..][j - 1];
      i
  }

  /** The category of the first matching rule, `Other` when none matches. */
  function FirstRule(rules: seq<(string, Category)>, action: string): Category {
    var i := FirstMatch(rules, action);
    if i < |rules| then rules[i].1 else Other
  }

  /** `getActionCategory` is the first-match scan of the keyword table: a
      category is chosen when one of its keywords occurs and no keyword of
      a higher-priority rule does, and `Other` when no keyword occurs. */
  lemma ActionCategoryIsFirstMatch(action: string)
    ensures ActionCategory(action) == FirstRule(CategoryRules, action)
  {
    var rs := CategoryRules;
    var i := FirstMatch(rs, action);
    // The keywords before the match are absent, the matched one present.
    forall j | 0 <= j < 8 && j < i ensures !Contains(action, rs[j].0) {
    }
    if i < 8 {
      assert Contains(action, rs[i].0);
    }
    assert rs[0].0 == "create" && rs[1].0 == "update" && rs[2].0 == "edit" && rs[3].0 == "delete";
    assert rs[4].0 == "login" && rs[5].0 == "logout" && rs[6].0 == "view" && rs[7].0 == "list";
  }

  /** `getActionColor(action)`: the colour classes of the category. */
  function CategoryColor(c: Category): string {
    match c
    case Create => "bg-green-100 text-green-800"
    case Update => "bg-blue-100 text-blue-800"
    case Delete => "bg-red-100 text-red-800"
    case Authentication => "bg-purple-100 text-purple-800"
    case _ => "bg-gray-100 text-gray-800"
  }

  function ActionColor(action: string): string {
    CategoryColor(ActionCategory(action))
  }

  /** The colour depends on the action only through its category, and two
      categories share a colour exactly when both are view or other. */
  lemma ActionColorByCategory(a: string, b: string)
    ensures ActionCategory(a) == ActionCategory(b) ==> ActionColor(a) == ActionColor(b)
    ensures ActionColor(a) == ActionColor(b) <==>
      ActionCategory(a) == ActionCategory(b) || (ActionCategory(a) in {View, Other} && ActionCategory(b) in {View, Other})
  {
  }

  /** The viewer's local `getActionColor`: no "edit" or "view" test, and
      "logout" is grey rather than purple. */
  function ViewerActionColor(action: string): string {
    if Contains(action, "create") then "bg-green-100 text-green-800"
    else if Contains(action, "update") then "bg-blue-100 text-blue-800"
    else if Contains(action, "delete") then "bg-red-100 text-red-800"
    else if Contains(action, "login") then "bg-purple-100 text-purple-800"
    else if Contains(action, "logout") then "bg-gray-100 text-gray-800"
    else "bg-gray-100 text-gray-800"
  }

  /** The two colour rules agree unless the helper's category comes from
      "edit" or "logout" alone; then the viewer shows grey. */
  lemma ViewerColorAgreement(action: string)
    ensures ViewerActionColor(action) == ActionColor(action) <==>
      !(ActionCategory(action) == Update && !Contains(action, "update"))
      && !(ActionCategory(action) == Authentication && !Contains(action, "login"))
  {
  }

  /** `\w` in a JavaScript regular expression without the `u` flag. */
  predicate IsWordChar(c: char) {
    IsAsciiUpper(c) || IsAsciiLower(c) || ('0' <= c <= '9') || c == '_'
  }

  /** The first replacement: every `_` becomes a space. */
  function Unscore(c: char): char {
    if c == '_' then ' ' else c
  }

  /** After the first replacement, position `i` is a word character at a
      word boundary (`\b\w`). */
  predicate StartsWord(s: string, i: int)
    requires 0 <= i < |s|
  {
    IsWordChar(Unscore(s[i])) && (i == 0 || !IsWordChar(Unscore(s[i - 1])))
  }

  /** `formatLogAction(action)`: a left-to-right scan that remembers whether
      the previous character was a word character. */
  function FormatLogAction(action: string): string {
    FormatFrom(action, false)
  }

  function FormatFrom(s: string, afterWord: bool): string {
    if |s| == 0 then ""
    else
      var c := Unscore(s[0]);
      [if IsWordChar(c) && !afterWord then UpperChar(c) else c] + FormatFrom(s[1..], IsWordChar(c))
  }

  /** The character `FormatFrom(s, afterWord)` should put at `i`: the
      upper-cased character at a word start, otherwise the character with
      `_` replaced. Before position 0, `afterWord` says whether a word
      character came. */
  function FormatAt(s: string, i: int, afterWord: bool): char
    requires 0 <= i < |s|
  {
    var c := Unscore(s[i]);
    var boundary := if i == 0 then !afterWord else !IsWordChar(Unscore(s[i - 1]));
    if IsWordChar(c) && boundary then UpperChar(c) else c
  }

  lemma {:induction false} FormatFromPointwise(s: string, afterWord: bool)
    ensures |FormatFrom(s, afterWord)| == |s|
    ensures forall i :: 0 <= i < |s| ==> FormatFrom(s, afterWord)[i] == FormatAt(s, i, afterWord)
    decreases |s|
  {
    if |s| > 0 {
      var w := IsWordChar(Unscore(s[0]));
      FormatFromPointwise(s[1..], w);
      var r := FormatFrom(s, afterWord);
      forall i | 0 <= i < |s| ensures r[i] == FormatAt(s, i, afterWord) {
        if i > 0 {
          assert r[i] == FormatFrom(s[1..], w)[i - 1];
          assert s[1..][i - 1] == s[i];
          if i > 1 {
            assert s[1..][i - 2] == s[i - 1];
          }
        }
      }
    }
  }

  lemma UpperCharKeepsWordChars(c: char)
    ensures IsWordChar(UpperChar(c)) == IsWordChar(c)
    ensures UpperChar(UpperChar(c)) == UpperChar(c)
    ensures c != '_' ==> UpperChar(c) != '_'
  {
  }

  /** The output has the input's length, contains no `_`, and upper-cases
      exactly the first character of each run of word characters; every
      other character is kept, with `_` turned into a space. */
  lemma FormatLogActionSpec(action: string)
    ensures var r := FormatLogAction(action);
      && |r| == |action|
      && '_' !in r
      && forall i :: 0 <= i < |action| ==>
           r[i] == (if StartsWord(action, i) then UpperChar(Unscore(action[i])) else Unscore(action[i]))
  {
    FormatFromPointwise(action, false);
    var r := FormatLogAction(action);
    forall i | 0 <= i < |action| ensures r[i] != '_' {
      UpperCharKeepsWordChars(Unscore(action[i]));
    }
  }

  /** Formatting an already formatted action changes nothing. */
  lemma FormatLogActionIdempotent(action: string)
    ensures FormatLogAction(FormatLogAction(action)) == FormatLogAction(action)
  {
    var r := FormatLogAction(action);
    FormatLogActionSpec(action);
    FormatLogActionSpec(r);
    forall i | 0 <= i < |r| ensures IsWordChar(Unscore(r[i])) == IsWordChar(Unscore(action[i])) {
      UpperCharKeepsWordChars(Unscore(action[i]));
    }
    forall i | 0 <= i < |r| ensures FormatLogAction(r)[i] == r[i] {
      UpperCharKeepsWordChars(Unscore(action[i]));
      assert StartsWord(r, i) == StartsWord(action, i);
    }
  }

  /** "add_user" becomes "Add User". */
  lemma FormatExample()
    ensures FormatLogAction("add_user") == "Add User"
  {
    FormatLogActionSpec("add_user");
  }

  /** `formatDuration(durationMs)` on an integer or a missing value (`None`).
      A falsy input (missing or 0) gives ""; below one second, including
      negative values, the integer followed by "ms". The seconds branch
      formats a float and is outside the model (`None`). */
  function FormatDuration(durationMs: Option<int>): (r: Option<string>)
    ensures r == Some("") <==> durationMs.None? || durationMs.value == 0
    ensures r.None? <==> durationMs.Some? && durationMs.value >= 1000
    ensures r.Some? && r.value != "" ==>
      |r.value| >= 3 && r.value[|r.value| - 2..] == "ms"
      && r.value[..|r.value| - 2] == IntToString(durationMs.value)
  {
    match durationMs
    case None => Some("")
    case Some(n) =>
      if n == 0 then Some("")
      else if n < 1000 then Some(IntToString(n) + "ms")
      else None
  }

  /** Distinct sub-second durations render differently. */
  lemma FormatDurationInjective(a: int, b: int)
    requires a != 0 && b != 0 && a < 1000 && b < 1000
    requires FormatDuration(Some(a)) == FormatDuration(Some(b))
    ensures a == b
  {
    var ra, rb := FormatDuration(Some(a)).value, FormatDuration(Some(b)).value;
    assert ra[..|ra| - 2] == rb[..|rb| - 2];
    IntToStringInjective(a, b);
  }

  /** What `parseLogDetails` yields, as far as `extractLogSummary` reads it:
      the object's own properties, `details.deleted_user?.email`, and the
      keys of `details.changes` (`None` when that is falsy). */
  datatype Details = Details(props: map<string, Value>, deletedUserEmail: Value, changeKeys: Option<seq<string>>)

  /** The summary object; a field that is never assigned is `None`. */
  datatype Summary = Summary(
    campaignName: Option<Value>, campaignId: Option<Value>,
    userEmail: Option<Value>, changes: Option<seq<string>>)

  /** `extractLogSummary(log)`. `details` is `None` when `log.details` is
      falsy or parses to a falsy value. */
  function ExtractLogSummary(action: string, details: Option<Details>): (r: Option<Summary>)
    ensures r.None? <==> details.None?
    ensures r.Some? ==> var (s, d) := (r.value, details.value);
      && (s.campaignName.Some? <==> Contains(action, "campaign"))
      && (s.campaignId.Some? <==> Contains(action, "campaign"))
      && (s.campaignName.Some? ==>
            s.campaignName.value == Prop(d.props, "campaign_name")
            && s.campaignId.value == Prop(d.props, "campaign_id"))
      && (s.userEmail.Some? <==> Contains(action, "user"))
      && (s.userEmail.Some? && JsTruthy(Prop(d.props, "created_user_email")) ==>
            s.userEmail.value == Prop(d.props, "created_user_email"))
      && (s.userEmail.Some? && !JsTruthy(Prop(d.props, "created_user_email")) ==>
            s.userEmail.value == d.deletedUserEmail)
      && s.changes == d.changeKeys
  {
    match details
    case None => None
    case Some(d) =>
      var isCampaign := Contains(action, "campaign");
      var created := Prop(d.props, "created_user_email");
      Some(Summary(
        if isCampaign then Some(Prop(d.props, "campaign_name")) else None,
        if isCampaign then Some(Prop(d.props, "campaign_id")) else None,
        if Contains(action, "user") then Some(if JsTruthy(created) then created else d.deletedUserEmail) else None,
        d.changeKeys))
  }

  /** The summary reads only the four documented keys of the details. */
  lemma SummaryReadsOnlyKnownKeys(action: string, d1: Details, d2: Details)
    requires d1.deletedUserEmail == d2.deletedUserEmail && d1.changeKeys == d2.changeKeys
    requires forall k :: k in {"campaign_name", "campaign_id", "created_user_email"} ==>
      Prop(d1.props, k) == Prop(d2.props, k)
    ensures ExtractLogSummary(action, Some(d1)) == ExtractLogSummary(action, Some(d2))
  {
    assert Prop(d1.props, "campaign_name") == Prop(d2.props, "campaign_name");
    assert Prop(d1.props, "campaign_id") == Prop(d2.props, "campaign_id");
    assert Prop(d1.props, "created_user_email") == Prop(d2.props, "created_user_email");
  }
}
