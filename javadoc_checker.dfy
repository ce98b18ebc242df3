/**
 * The pre-execution check that turns off documentation generation for a
 * Maven run: when the IDE-wide "skip javadoc" setting is on, no goal of the
 * run mentions javadoc, and the run does not already say what to do about
 * javadoc, the property maven.javadoc.skip is set to "true".
 *
 * The global settings lookup is replaced by a boolean parameter.
 */
module JavaDocChecker {
  import opened Wrappers

  const PROP_SKIP_JAVADOC: string := "maven.javadoc.skip"
  const JAVADOC: string := "javadoc"

  /** The part of a run configuration the check reads and writes. A null goal list is None. */
  class RunConfig {
    var goals: Option<seq<string>>
    var properties: map<string, string>

    constructor (goals: Option<seq<string>>, properties: map<string, string>)
      ensures this.goals == goals && this.properties == properties
    {
      this.goals := goals;
      this.properties := properties;
    }
  }

  // ---------------------------------------------------------------------------
  // Rendering a goal list the way String.valueOf does, and substring search
  // ---------------------------------------------------------------------------

  /** The elements joined by ", ", as AbstractCollection.toString writes them between the brackets. */
  function Join(items: seq<string>): string
  {
    if |items| == 0 then ""
    else if |items| == 1 then items[0]
    else items[0] + ", " + Join(items[1..])
  }

  /** String.valueOf of the goal list: "null" for a null list, "[a, b, c]" otherwise. */
  function Render(goals: Option<seq<string>>): string
  {
    match goals
    case None => "null"
    case Some(items) => "[" + Join(items) + "]"
  }

  /** t occurs in s starting at index i. */
  predicate OccursAt(s: string, t: string, i: int)
  {
    0 <= i <= |s| - |t| && s[i..i + |t|] == t
  }

  /** String.contains. */
  predicate Contains(s: string, t: string)
  {
    exists i :: 0 <= i <= |s| - |t| && OccursAt(s, t, i)
  }

  /** No character of b occurs in t. */
  predicate Avoids(b: string, t: string)
  {
    forall k :: 0 <= k < |b| ==> b[k] !in t
  }

  /** Every character of an occurrence of t is a character of t. */
  lemma CharOfOccurrence(s: string, t: string, i: int, j: int)
    requires OccursAt(s, t, i) && i <= j < i + |t|
    ensures s[j] in t
  {
    assert s[j] == s[i..i + |t|][j - i];
  }

  /** An occurrence of t in a + b + c lies inside a or inside c, when b shares no character with t. */
  lemma OccurrenceAvoidsSeparator(a: string, b: string, c: string, t: string, i: int)
    requires |t| > 0 && |b| > 0 && Avoids(b, t) && OccursAt(a + b + c, t, i)
    ensures Contains(a, t) || Contains(c, t)
  {
    var s := a + b + c;
    if i + |t| <= |a| {
      assert s[i..i + |t|] == a[i..i + |t|];
      assert OccursAt(a, t, i);
    } else if i >= |a| + |b| {
      var j := i - |a| - |b|;
      assert s[i..i + |t|] == c[j..j + |t|];
      assert OccursAt(c, t, j);
    } else {
      CharOfOccurrence(s, t, i, if i < |a| then |a| else i);
      assert false;
    }
  }

  /** An occurrence of t in a, or in c, is one in a + b + c. */
  lemma OccurrenceInPart(a: string, b: string, c: string, t: string)
    requires Contains(a, t) || Contains(c, t)
    ensures Contains(a + b + c, t)
  {
    var s := a + b + c;
    if Contains(a, t) {
      var i :| 0 <= i <= |a| - |t| && OccursAt(a, t, i);
      assert s[i..i + |t|] == a[i..i + |t|];
      assert OccursAt(s, t, i);
    } else {
      var j :| 0 <= j <= |c| - |t| && OccursAt(c, t, j);
      var i := j + |a| + |b|;
      assert s[|a + b|..] == c;
      assert s[i..i + |t|] == s[|a + b|..][j..j + |t|];
      assert OccursAt(s, t, i);
    }
  }

  /** A non-empty t occurs in a + b + c iff it occurs in a or in c, when b shares no character with t. */
  lemma ContainsAcrossSeparator(a: string, b: string, c: string, t: string)
    requires |t| > 0 && |b| > 0 && Avoids(b, t)
    ensures Contains(a + b + c, t) <==> Contains(a, t) || Contains(c, t)
  {
    if Contains(a + b + c, t) {
      var i :| 0 <= i <= |a + b + c| - |t| && OccursAt(a + b + c, t, i);
      OccurrenceAvoidsSeparator(a, b, c, t, i);
    }
    if Contains(a, t) || Contains(c, t) {
      OccurrenceInPart(a, b, c, t);
    }
  }

  /** Nothing occurs in the empty string but the empty string. */
  lemma NotInEmpty(t: string)
    requires |t| > 0
    ensures !Contains("", t)
  {
  }

  /** A non-empty t free of ',' and ' ' occurs in the joined list iff it occurs in one item. */
  lemma {:induction false} ContainsInJoin(items: seq<string>, t: string)
    requires |t| > 0 && Avoids(", ", t)
    ensures Contains(Join(items), t) <==> exists g :: g in items && Contains(g, t)
  {
    if |items| == 0 {
      NotInEmpty(t);
    } else if |items| == 1 {
      assert forall g :: g in items ==> g == items[0];
    } else {
      ContainsInJoin(items[1..], t);
      ContainsAcrossSeparator(items[0], ", ", Join(items[1..]), t);
      assert Join(items) == items[0] + ", " + Join(items[1..]);
      assert forall g :: g in items <==> g == items[0] || g in items[1..];
    }
  }

  /**
   * The check on the rendered goal list is the same as asking whether some goal
   * contains "javadoc"; a null list never matches.
   */
  lemma RenderedGoalsMentionJavadoc(goals: Option<seq<string>>)
    ensures Contains(Render(goals), JAVADOC) <==> goals.Some? && exists g :: g in goals.value && Contains(g, JAVADOC)
  {
    assert Avoids("[", JAVADOC) && Avoids("]", JAVADOC) && Avoids(", ", JAVADOC);
    match goals
    case None =>
    case Some(items) =>
      ContainsInJoin(items, JAVADOC);
      ContainsAcrossSeparator("", "[", Join(items) + "]", JAVADOC);
      ContainsAcrossSeparator(Join(items), "]", "", JAVADOC);
      NotInEmpty(JAVADOC);
      assert "[" + Join(items) + "]" == "" + "[" + (Join(items) + "]");
      assert Join(items) + "]" == Join(items) + "]" + "";
  }

  // ---------------------------------------------------------------------------
  // The rule
  // ---------------------------------------------------------------------------

  /** The rule fires: the setting is on, no goal mentions javadoc, and the property is unset. */
  predicate SkipApplies(skipJavaDoc: bool, goals: Option<seq<string>>, properties: map<string, string>)
  {
    skipJavaDoc && !Contains(Render(goals), JAVADOC) && PROP_SKIP_JAVADOC !in properties
  }

  /** The properties of a run after the check. */
  function CheckedProperties(skipJavaDoc: bool, goals: Option<seq<string>>, properties: map<string, string>): (r: map<string, string>)
    ensures !skipJavaDoc ==> r == properties
    ensures Contains(Render(goals), JAVADOC) ==> r == properties
    ensures PROP_SKIP_JAVADOC in properties ==> r == properties
    ensures SkipApplies(skipJavaDoc, goals, properties) ==>
      r.Keys == properties.Keys + {PROP_SKIP_JAVADOC} && r[PROP_SKIP_JAVADOC] == "true"
    ensures forall k :: k in properties ==> k in r && r[k] == properties[k]
  {
    if SkipApplies(skipJavaDoc, goals, properties) then properties[PROP_SKIP_JAVADOC := "true"] else properties
  }

  /** Running the check a second time changes nothing more. */
  lemma CheckIsIdempotent(skipJavaDoc: bool, goals: Option<seq<string>>, properties: map<string, string>)
    ensures var once := CheckedProperties(skipJavaDoc, goals, properties);
            CheckedProperties(skipJavaDoc, goals, once) == once
  {
  }

  /** The rule stated on the goals themselves rather than on their rendering. */
  lemma CheckSetsSkipExactly(skipJavaDoc: bool, goals: Option<seq<string>>, properties: map<string, string>)
    ensures var r := CheckedProperties(skipJavaDoc, goals, properties);
            r == (if skipJavaDoc
                     && !(goals.Some? && exists g :: g in goals.value && Contains(g, JAVADOC))
                     && PROP_SKIP_JAVADOC !in properties
                  then properties[PROP_SKIP_JAVADOC := "true"]
                  else properties)
  {
    RenderedGoalsMentionJavadoc(goals);
  }

  /** PrerequisitesChecker.checkRunConfig: may set maven.javadoc.skip, never vetoes the run. */
  method CheckRunConfig(config: RunConfig, skipJavaDoc: bool) returns (proceed: bool)
    modifies config
    ensures proceed
    ensures config.goals == old(config.goals)
    ensures config.properties == CheckedProperties(skipJavaDoc, old(config.goals), old(config.properties))
  {
    if skipJavaDoc {
      if !Contains(Render(config.goals), JAVADOC) {
        if PROP_SKIP_JAVADOC !in config.properties {
          config.properties := config.properties[PROP_SKIP_JAVADOC := "true"];
        }
      }
    }
    return true;
  }
}
