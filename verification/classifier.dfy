/** The story-type classifier (`getStoryType`): a GitHub issue's labels decide
    whether the Clubhouse story is a bug, a chore or a feature. */
module Classifier {
  import opened Wrappers
  import opened Strings

  /** A GitHub label; only its name is consulted. */
  datatype Label = Label(name: string)

  /** The Clubhouse story categories. */
  datatype StoryType = Bug | Chore | Feature

  /** Some label's name contains `word` as a substring. */
  ghost predicate HasLabelContaining(labels: seq<Label>, word: string) {
    exists i :: 0 <= i < |labels| && Contains(labels[i].name, word)
  }

  /** Index `i` holds the first label whose name contains `word`. */
  ghost predicate FirstMatchAt(labels: seq<Label>, word: string, i: int) {
    && 0 <= i < |labels|
    && Contains(labels[i].name, word)
    && forall j :: 0 <= j < i ==> !Contains(labels[j].name, word)
  }

  /** Helper: when the head does not match, matches in the tail are the
      matches of the whole list, shifted by one. */
  lemma SkipHead(labels: seq<Label>, word: string)
    requires |labels| > 0 && !Contains(labels[0].name, word)
    ensures HasLabelContaining(labels, word) <==> HasLabelContaining(labels[1..], word)
    ensures forall i :: FirstMatchAt(labels[1..], word, i) ==> FirstMatchAt(labels, word, i + 1)
  {
  }

  /** `labels.find(label => label.name.includes(word))`: the first label whose
      name contains `word`, or nothing. */
  function Find(labels: seq<Label>, word: string): (r: Option<Label>)
    ensures r.None? <==> !HasLabelContaining(labels, word)
    ensures r.Some? ==> exists i :: FirstMatchAt(labels, word, i) && labels[i] == r.value
  {
    if |labels| == 0 then None
    else if Contains(labels[0].name, word) then
      assert FirstMatchAt(labels, word, 0);
      Some(labels[0])
    else
      SkipHead(labels, word);
      var r := Find(labels[1..], word);
      assert r.Some? ==> exists i :: FirstMatchAt(labels[1..], word, i) && labels[i + 1] == r.value;
      r
  }

  /** `getStoryType`: "bug" wins over "chore", which wins over the default "feature". */
  function GetStoryType(labels: seq<Label>): (r: StoryType)
    ensures r == Bug <==> HasLabelContaining(labels, "bug")
    ensures r == Chore <==> !HasLabelContaining(labels, "bug") && HasLabelContaining(labels, "chore")
    ensures r == Feature <==> !HasLabelContaining(labels, "bug") && !HasLabelContaining(labels, "chore")
  {
    if Find(labels, "bug").Some? then Bug
    else if Find(labels, "chore").Some? then Chore
    else Feature
  }

  /** A label mentioning "bug" makes the story a bug wherever it sits and
      whatever the other labels say, "chore" labels included. */
  lemma BugWins(before: seq<Label>, l: Label, after: seq<Label>)
    requires Contains(l.name, "bug")
    ensures GetStoryType(before + [l] + after) == Bug
  {
    var all := before + [l] + after;
    assert all[|before|] == l;
  }

  /** Adding labels never takes away a "bug" classification. */
  lemma BugIsMonotone(labels: seq<Label>, more: seq<Label>)
    requires GetStoryType(labels) == Bug
    ensures GetStoryType(labels + more) == Bug
    ensures GetStoryType(more + labels) == Bug
  {
    var i :| 0 <= i < |labels| && Contains(labels[i].name, "bug");
    assert (labels + more)[i] == labels[i];
    assert (more + labels)[|more| + i] == labels[i];
  }

  /** The classification depends only on which labels are present, not on
      their order or how often they repeat. */
  lemma {:induction false} StoryTypeIgnoresOrder(a: seq<Label>, b: seq<Label>)
    requires forall l :: l in a <==> l in b
    ensures GetStoryType(a) == GetStoryType(b)
  {
    SameLabelsSameMatches(a, b, "bug");
    SameLabelsSameMatches(a, b, "chore");
  }

  /** Helper: two label lists with the same elements match the same words. */
  lemma SameLabelsSameMatches(a: seq<Label>, b: seq<Label>, word: string)
    requires forall l :: l in a <==> l in b
    ensures HasLabelContaining(a, word) <==> HasLabelContaining(b, word)
  {
    if HasLabelContaining(a, word) {
      var i :| 0 <= i < |a| && Contains(a[i].name, word);
      assert a[i] in b;
      var j :| 0 <= j < |b| && b[j] == a[i];
    }
    if HasLabelContaining(b, word) {
      var j :| 0 <= j < |b| && Contains(b[j].name, word);
      assert b[j] in a;
      var i :| 0 <= i < |a| && a[i] == b[j];
    }
  }

  /** Sample classifications: a bug with a priority label,
      bug over chore, and no labels at all. */
  lemma BugAndDefaultExamples()
    ensures GetStoryType([Label("bug"), Label("p1")]) == Bug
    ensures GetStoryType([Label("bug"), Label("chore")]) == Bug
    ensures GetStoryType([]) == Feature
  {
  }

  /** Helper: a single label decides the type on its own. */
  lemma SingleLabel(l: Label)
    ensures Contains(l.name, "bug") ==> GetStoryType([l]) == Bug
    ensures !Contains(l.name, "bug") && Contains(l.name, "chore") ==> GetStoryType([l]) == Chore
    ensures !Contains(l.name, "bug") && !Contains(l.name, "chore") ==> GetStoryType([l]) == Feature
  {
  }

  /** A lone "chore" label makes a chore. */
  lemma ChoreExample()
    ensures GetStoryType([Label("chore")]) == Chore
  {
    assert Contains("chore", "chore");
    MissingCharExcludes("chore", "bug", 'b');
    SingleLabel(Label("chore"));
  }

  /** "enhancement" makes a feature. */
  lemma FeatureExample()
    ensures GetStoryType([Label("enhancement")]) == Feature
  {
    MissingCharExcludes("enhancement", "bug", 'b');
    MissingCharExcludes("enhancement", "chore", 'r');
    SingleLabel(Label("enhancement"));
  }

  /** "Bug" makes a feature too: the match is case-sensitive. */
  lemma CaseSensitiveExample()
    ensures GetStoryType([Label("Bug")]) == Feature
  {
    MissingCharExcludes("Bug", "bug", 'b');
    MissingCharExcludes("Bug", "chore", 'c');
    SingleLabel(Label("Bug"));
  }
}
