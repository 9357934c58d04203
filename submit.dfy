/**
 * The record the submit handler posts: the checked activity values joined
 * with `", "`, with the first `기타` ("other") annotated by the free-text
 * detail when the detail is non-empty; every other field is the form value
 * as given.
 */
module Submit {
  import opened Wrappers
  import opened Text
  import opened Records
  import Charts

  /** The "other" option of the activity checkboxes. */
  const Other := "기타"

  const ActivitySeparator := ", "

  /** `FormData.get` of the fields, `null` (here `None`) when a field is absent. */
  datatype Form = Form(
    location: Option<string>,
    outdoor: Option<string>,
    time: Option<string>,
    mood: Option<string>,
    satisfaction: Option<string>,
    important: Option<string>,
    recommend: Option<string>,
    memory: Option<string>,
    activityEtc: Option<string>)

  /** The JSON body of the write request; the server adds the timestamp. */
  datatype Submission = Submission(
    Location: Option<string>,
    Outdoor: Option<string>,
    Activity: string,
    Time: Option<string>,
    Mood: Option<string>,
    Satisfaction: Option<string>,
    Important: Option<string>,
    Recommend: Option<string>,
    Memory: Option<string>)

  /** A form value in a condition: `null` and `""` are falsy. */
  predicate Truthy(o: Option<string>) {
    o.Some? && o.value != ""
  }

  /** The annotated option, `기타(<detail>)`. */
  function OtherWith(detail: string): string {
    Other + "(" + detail + ")"
  }

  /** Replacing the first occurrence of `pat` by `rep`, taken literally. */
  function ReplaceFirst(s: string, pat: string, rep: string): string {
    match IndexOf(s, pat)
    case None => s
    case Some(i) => s[..i] + rep + s[i + |pat|..]
  }

  /**
   * What `String.prototype.replace` inserts for a replacement string when
   * the pattern is a string (GetSubstitution in ECMA-262, with no
   * captures): `$$` is `$`, `$&` the matched text, `` $` `` the text before
   * the match, `$'` the text after it; any other `$` stands for itself.
   */
  function Substitution(template: string, matched: string, before: string, after: string): string {
    if |template| >= 2 && template[0] == '$' && template[1] in "$&`'" then
      var ins := if template[1] == '$' then "$"
                 else if template[1] == '&' then matched
                 else if template[1] == '`' then before
                 else after;
      ins + Substitution(template[2..], matched, before, after)
    else if template == [] then []
    else [template[0]] + Substitution(template[1..], matched, before, after)
  }

  /** `s.replace(pat, template)` with a string pattern, as the engine runs it. */
  function ReplaceFirstAsWritten(s: string, pat: string, template: string): string {
    match IndexOf(s, pat)
    case None => s
    case Some(i) =>
      var before, after := s[..i], s[i + |pat|..];
      before + Substitution(template, pat, before, after) + after
  }

  /**
   * The Activity value that is posted: the join, with the first `기타`
   * annotated when the join contains `기타` and the detail is truthy.
   */
  function FinalActivities(checked: seq<string>, detail: Option<string>): string {
    var activities := Join(checked, ActivitySeparator);
    if Includes(activities, Other) && Truthy(detail)
    then ReplaceFirst(activities, Other, OtherWith(detail.value))
    else activities
  }

  /** The same ternary with the engine's `replace`, `$` patterns and all. */
  function FinalActivitiesAsWritten(checked: seq<string>, detail: Option<string>): string {
    var activities := Join(checked, ActivitySeparator);
    if Includes(activities, Other) && Truthy(detail)
    then ReplaceFirstAsWritten(activities, Other, OtherWith(detail.value))
    else activities
  }

  /** The object the handler posts, built from the form and the checked activities. */
  function BuildSubmission(form: Form, checked: seq<string>): Submission {
    Submission(form.location, form.outdoor, FinalActivities(checked, form.activityEtc),
               form.time, form.mood, form.satisfaction, form.important,
               form.recommend, form.memory)
  }

  // ---------------------------------------------------------------------
  // Replacing the first occurrence

  /**
   * Where `pat` first occurs right after `p`, the replacement puts `rep` in
   * its place and keeps everything before and after it.
   */
  lemma ReplaceFirstSpec(s: string, pat: string, rep: string, p: string, q: string)
    requires s == p + pat + q
    requires forall j: nat :: j < |p| ==> !OccursAt(s, pat, j)
    ensures ReplaceFirst(s, pat, rep) == p + rep + q
  {
    assert s[|p|..|p| + |pat|] == pat;
    IndexOfFirst(s, pat, |p|);
    assert s[..|p|] == p;
    assert s[|p| + |pat|..] == q;
  }

  /** Where `pat` does not occur, nothing is replaced. */
  lemma ReplaceFirstAbsent(s: string, pat: string, rep: string)
    requires forall j: nat :: !OccursAt(s, pat, j)
    ensures ReplaceFirst(s, pat, rep) == s
  {
  }

  /**
   * The posted Activity when the join contains `기타` and a detail is
   * given: the join with only its first `기타` replaced by `기타(<detail>)`.
   */
  lemma OtherAnnotated(checked: seq<string>, detail: Option<string>, p: string, q: string)
    requires Join(checked, ActivitySeparator) == p + Other + q
    requires forall j: nat :: j < |p| ==> !OccursAt(Join(checked, ActivitySeparator), Other, j)
    requires Truthy(detail)
    ensures FinalActivities(checked, detail) == p + OtherWith(detail.value) + q
  {
    var s := Join(checked, ActivitySeparator);
    assert OccursAt(s, Other, |p|) by {
      assert s[|p|..|p| + |Other|] == Other;
    }
    ReplaceFirstSpec(s, Other, OtherWith(detail.value), p, q);
  }

  /** Without `기타` in the join, or without a detail, the join is posted as it is. */
  lemma OtherUnchanged(checked: seq<string>, detail: Option<string>)
    requires (forall j: nat :: !OccursAt(Join(checked, ActivitySeparator), Other, j)) || !Truthy(detail)
    ensures FinalActivities(checked, detail) == Join(checked, ActivitySeparator)
  {
  }

  // ---------------------------------------------------------------------
  // The engine's replace against the literal one

  /** A replacement with no `$` in it is inserted literally. */
  lemma {:induction false} SubstitutionLiteral(template: string, matched: string, before: string, after: string)
    requires '$' !in template
    ensures Substitution(template, matched, before, after) == template
  {
    if template != [] {
      assert template[0] != '$';
      assert '$' !in template[1..] by {
        assert forall k :: 0 <= k < |template| - 1 ==> template[1..][k] == template[k + 1];
      }
      SubstitutionLiteral(template[1..], matched, before, after);
      assert [template[0]] + template[1..] == template;
    }
  }

  /** For a detail without `$`, the engine's replace is the literal one. */
  lemma AsWrittenAgreesWithoutDollar(checked: seq<string>, detail: Option<string>)
    requires detail.Some? ==> '$' !in detail.value
    ensures FinalActivitiesAsWritten(checked, detail) == FinalActivities(checked, detail)
  {
    if detail.Some? {
      var rep := OtherWith(detail.value);
      assert '$' !in rep by {
        assert rep == Other + "(" + detail.value + ")";
        assert '$' !in Other && '$' !in "(" && '$' !in ")";
      }
      var s := Join(checked, ActivitySeparator);
      match IndexOf(s, Other)
      case None =>
      case Some(i) =>
        SubstitutionLiteral(rep, Other, s[..i], s[i + |Other|..]);
    }
  }

  /** A `$`-free prefix of the replacement is inserted as it is. */
  lemma {:induction false} SubstitutionLiteralPrefix(x: string, rest: string, matched: string, before: string, after: string)
    requires '$' !in x
    ensures Substitution(x + rest, matched, before, after) == x + Substitution(rest, matched, before, after)
  {
    if x != [] {
      var t := x + rest;
      assert t[0] == x[0] && t[0] != '$';
      assert t[1..] == x[1..] + rest;
      assert '$' !in x[1..] by {
        assert forall k :: 0 <= k < |x| - 1 ==> x[1..][k] == x[k + 1];
      }
      assert Substitution(t, matched, before, after) == [x[0]] + Substitution(x[1..] + rest, matched, before, after);
      SubstitutionLiteralPrefix(x[1..], rest, matched, before, after);
      assert [x[0]] + x[1..] == x;
    } else {
      assert x + rest == rest;
    }
  }

  /**
   * A detail of `$&` is posted as `기타(기타)`: the engine reads `$&` as
   * "the matched text". The intended value is `기타($&)`.
   */
  lemma DollarDetailExpanded()
    ensures FinalActivitiesAsWritten([Other], Some("$&")) == "기타(기타)"
    ensures FinalActivities([Other], Some("$&")) == "기타($&)"
  {
    var s := Join([Other], ActivitySeparator);
    assert s == Other;
    assert IndexOf(s, Other) == Some(0) by {
      assert s[0..|Other|] == Other;
      IndexOfFirst(s, Other, 0);
    }
    assert s[..0] == [] && s[|Other|..] == [];
    var head := "기타(";
    assert OtherWith("$&") == head + "$&)";
    assert Substitution("$&)", Other, [], []) == Other + ")" by {
      assert "$&)"[2..] == ")";
      assert ")"[1..] == [];
    }
    assert '$' !in head;
    SubstitutionLiteralPrefix(head, "$&)", Other, [], []);
  }

  /**
   * The posted object copies every form field as given (Outdoor included,
   * with no `기타` detail), posts the plain join when the annotation does
   * not apply, and agrees with the engine's `replace` whenever the detail
   * holds no `$`.
   */
  lemma SubmissionFromForm(form: Form, checked: seq<string>)
    ensures var s := BuildSubmission(form, checked);
      && s.Location == form.location && s.Outdoor == form.outdoor
      && s.Time == form.time && s.Mood == form.mood
      && s.Satisfaction == form.satisfaction && s.Important == form.important
      && s.Recommend == form.recommend && s.Memory == form.memory
      && (!Truthy(form.activityEtc) || !Includes(Join(checked, ActivitySeparator), Other) ==>
            s.Activity == Join(checked, ActivitySeparator))
      && ((form.activityEtc.Some? ==> '$' !in form.activityEtc.value) ==>
            s.Activity == FinalActivitiesAsWritten(checked, form.activityEtc))
  {
    if form.activityEtc.Some? ==> '$' !in form.activityEtc.value {
      AsWrittenAgreesWithoutDollar(checked, form.activityEtc);
    }
  }

  // ---------------------------------------------------------------------
  // From the form to the activity chart

  /** The values after the first, each with the `" "` of the separator in front. */
  function PadRest(vs: seq<string>): (r: seq<string>)
    ensures |r| == |vs|
  {
    if vs == [] then [] else [" " + vs[0]] + PadRest(vs[1..])
  }

  lemma JoinPrefixFirst(x: string, ps: seq<string>, sep: string)
    requires ps != []
    ensures x + Join(ps, sep) == Join([x + ps[0]] + ps[1..], sep)
  {
    if |ps| > 1 {
      JoinCons(ps[0], ps[1..], sep);
      JoinCons(x + ps[0], ps[1..], sep);
    }
  }

  /** Joining with `", "` is joining with `","` the values padded by a space. */
  lemma {:induction false} JoinCommaSpace(vs: seq<string>)
    requires vs != []
    ensures Join(vs, ActivitySeparator) == Join([vs[0]] + PadRest(vs[1..]), ",")
  {
    if |vs| > 1 {
      var rest := vs[1..];
      JoinCommaSpace(rest);
      var padded := [rest[0]] + PadRest(rest[1..]);
      JoinPrefixFirst(" ", padded, ",");
      assert [" " + rest[0]] + PadRest(rest[1..]) == PadRest(rest);
      JoinCons(vs[0], PadRest(rest), ",");
      assert [vs[0]] + rest == vs;
    }
  }

  lemma {:induction false} TrimPadRest(vs: seq<string>)
    ensures TrimAll(PadRest(vs)) == TrimAll(vs)
  {
    if vs != [] {
      TrimPadRest(vs[1..]);
      TrimSpacePrefix(' ', vs[0]);
    }
  }

  /**
   * Posting and reading back: for checked values without commas, when the
   * `기타` annotation does not apply, the activity chart of the stored
   * record draws exactly the checked values, trimmed, empty ones dropped.
   */
  lemma SubmittedActivitiesRoundTrip(form: Form, checked: seq<string>, r: Record)
    requires forall v :: v in checked ==> ',' !in v
    requires !Truthy(form.activityEtc) || !Includes(Join(checked, ActivitySeparator), Other)
    requires r.Activity == Some(BuildSubmission(form, checked).Activity)
    ensures Charts.ActivityTokens([r]) == NonEmpty(TrimAll(checked))
  {
    assert ActivityText(r) == Join(checked, ActivitySeparator);
    JoinedTags(checked);
    assert [r][1..] == [];
    assert Charts.ActivityPieces([r]) == DisplayTags(r);
    if checked == [] {
      assert NonEmpty([""]) == [];
    }
  }

  /**
   * The list view's tags of a posted join: the checked values, trimmed, or
   * the one empty tag of `""` when nothing was checked.
   */
  lemma JoinedTags(checked: seq<string>)
    requires forall v :: v in checked ==> ',' !in v
    ensures checked == [] ==> TrimAll(Split(Join(checked, ActivitySeparator), ',')) == [""]
    ensures checked != [] ==> TrimAll(Split(Join(checked, ActivitySeparator), ',')) == TrimAll(checked)
  {
    var joined := Join(checked, ActivitySeparator);
    if checked == [] {
      SplitNoSeparator(joined, ',');
      assert TrimAll([joined]) == [Trim([])];
    } else {
      var padded := [checked[0]] + PadRest(checked[1..]);
      JoinCommaSpace(checked);
      assert forall p :: p in padded ==> ',' !in p by {
        assert checked[0] in checked;
        PadRestNoComma(checked[1..]);
      }
      SplitJoin(padded, ',');
      TrimPadRest(checked[1..]);
      assert TrimAll(padded) == [Trim(checked[0])] + TrimAll(checked[1..]);
      assert [checked[0]] + checked[1..] == checked;
    }
  }

  lemma {:induction false} PadRestNoComma(vs: seq<string>)
    requires forall v :: v in vs ==> ',' !in v
    ensures forall p :: p in PadRest(vs) ==> ',' !in p
  {
    if vs != [] {
      assert vs[0] in vs;
      assert forall v :: v in vs[1..] ==> v in vs;
      PadRestNoComma(vs[1..]);
    }
  }
}
