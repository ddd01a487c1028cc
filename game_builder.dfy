/** The four-step game-builder wizard: name, template, customisation, publish. */
module GameBuilder {
  import opened Common

  const FirstStep := 1
  const LastStep := 4

  /** The characters `String.prototype.trim` strips: the ECMAScript WhiteSpace
      code points (tab, vertical tab, form feed, space, no-break space, zero
      width no-break space and the other space separators) and the four
      LineTerminator code points. */
  predicate IsWhitespace(c: char) {
    var n := c as int;
    n == 0x09 || n == 0x0A || n == 0x0B || n == 0x0C || n == 0x0D || n == 0x20 ||
    n == 0xA0 || n == 0x1680 || (0x2000 <= n <= 0x200A) || n == 0x2028 || n == 0x2029 ||
    n == 0x202F || n == 0x205F || n == 0x3000 || n == 0xFEFF
  }

  predicate AllWhitespace(s: string) {
    forall i :: 0 <= i < |s| ==> IsWhitespace(s[i])
  }

  /** Leading whitespace removed: a suffix of s that is empty exactly when s
      is all whitespace, and otherwise starts with a visible character. */
  function TrimStart(s: string): (r: string)
    ensures |r| <= |s| && r == s[|s| - |r|..]
    ensures r == [] <==> AllWhitespace(s)
    ensures r == [] || !IsWhitespace(r[0])
  {
    if s == [] || !IsWhitespace(s[0]) then s
    else
      var r := TrimStart(s[1..]);
      assert AllWhitespace(s[1..]) ==> AllWhitespace(s) by {
        if AllWhitespace(s[1..]) {
          forall i | 1 <= i < |s| ensures IsWhitespace(s[i]) {
            assert s[i] == s[1..][i - 1];
          }
        }
      }
      r
  }

  /** Trailing whitespace removed: a prefix of s, empty exactly when s is all
      whitespace, and otherwise ending with a visible character. */
  function TrimEnd(s: string): (r: string)
    ensures |r| <= |s| && r == s[..|r|]
    ensures r == [] <==> AllWhitespace(s)
    ensures r == [] || !IsWhitespace(r[|r| - 1])
  {
    if s == [] || !IsWhitespace(s[|s| - 1]) then s
    else
      var r := TrimEnd(s[..|s| - 1]);
      assert AllWhitespace(s[..|s| - 1]) ==> AllWhitespace(s) by {
        if AllWhitespace(s[..|s| - 1]) {
          forall i | 0 <= i < |s| - 1 ensures IsWhitespace(s[i]) {
            assert s[i] == s[..|s| - 1][i];
          }
        }
      }
      r
  }

  /** `String.prototype.trim`. */
  function Trim(s: string): string {
    TrimEnd(TrimStart(s))
  }

  /** A trimmed name is non-empty exactly when the name holds a character that
      is not whitespace. */
  lemma TrimNonEmptyIff(s: string)
    ensures |Trim(s)| > 0 <==> exists i :: 0 <= i < |s| && !IsWhitespace(s[i])
  {
    var t := TrimStart(s);
    if t != [] {
      assert !AllWhitespace(t) by {
        assert !IsWhitespace(t[0]);
      }
    }
  }

  /** `filter(f => f !== feature)`. */
  function Without(s: seq<string>, f: string): (r: seq<string>)
    ensures forall g :: g in r <==> g in s && g != f
    ensures f !in s ==> r == s
    ensures NoDuplicates(s) ==> NoDuplicates(r)
  {
    if s == [] then []
    else if s[0] == f then Without(s[1..], f)
    else
      assert NoDuplicates(s) ==> s[0] !in s[1..];
      [s[0]] + Without(s[1..], f)
  }

  /** `toggleFeature`: removes every copy of f when it is listed, appends it otherwise. */
  function ToggleFeature(features: seq<string>, f: string): (r: seq<string>)
    ensures f in r <==> f !in features
    ensures forall g :: g != f ==> (g in r <==> g in features)
    ensures NoDuplicates(features) ==> NoDuplicates(r)
  {
    if f in features then Without(features, f) else features + [f]
  }

  /** Toggling twice restores whether f is listed, and leaves a list without f
      exactly as it was. */
  lemma ToggleTwice(features: seq<string>, f: string)
    ensures forall g :: g in ToggleFeature(ToggleFeature(features, f), f) <==> g in features
    ensures f !in features ==> ToggleFeature(ToggleFeature(features, f), f) == features
  {
    if f !in features {
      WithoutAppended(features, f);
    }
  }

  lemma {:induction false} WithoutAppended(s: seq<string>, f: string)
    requires f !in s
    ensures Without(s + [f], f) == s
  {
    if s != [] {
      assert (s + [f])[1..] == s[1..] + [f];
      WithoutAppended(s[1..], f);
    } else {
      assert Without([f], f) == Without([], f);
    }
  }

  class GameBuilder {
    var currentStep: int
    var gameName: string
    var selectedTemplate: Option<int>
    var features: seq<string>

    /** The step stays in 1 .. 4, so `steps[currentStep - 1]` is always a step,
        and the feature list never lists a feature twice. */
    ghost predicate Valid()
      reads this
    {
      FirstStep <= currentStep <= LastStep && NoDuplicates(features)
    }

    constructor ()
      ensures Valid()
      ensures currentStep == 1 && gameName == "" && selectedTemplate == None && features == []
    {
      currentStep := 1;
      gameName := "";
      selectedTemplate := None;
      features := [];
    }

    /** `canProceed`: a visible name at step 1, a chosen template at step 2,
        always at steps 3 and 4, never elsewhere. */
    function CanProceed(): (b: bool)
      reads this
      ensures currentStep == 1 ==> (b <==> exists i :: 0 <= i < |gameName| && !IsWhitespace(gameName[i]))
      ensures currentStep == 2 ==> (b <==> selectedTemplate.Some?)
      ensures currentStep == 3 || currentStep == 4 ==> b
      ensures currentStep < 1 || currentStep > 4 ==> !b
    {
      TrimNonEmptyIff(gameName);
      match currentStep
      case 1 => |Trim(gameName)| > 0
      case 2 => selectedTemplate.Some?
      case 3 => true
      case 4 => true
      case _ => false
    }

    /** `handleNext`: one step forward, never past the last. */
    method HandleNext()
      requires Valid()
      modifies this
      ensures Valid()
      ensures currentStep == if old(currentStep) < LastStep then old(currentStep) + 1 else old(currentStep)
      ensures gameName == old(gameName) && selectedTemplate == old(selectedTemplate) && features == old(features)
    {
      if currentStep < LastStep {
        currentStep := currentStep + 1;
      }
    }

    /** `handleBack`: one step back, never before the first. */
    method HandleBack()
      requires Valid()
      modifies this
      ensures Valid()
      ensures currentStep == if old(currentStep) > FirstStep then old(currentStep) - 1 else old(currentStep)
      ensures gameName == old(gameName) && selectedTemplate == old(selectedTemplate) && features == old(features)
    {
      if currentStep > FirstStep {
        currentStep := currentStep - 1;
      }
    }

    /** The Next button: shown below the last step and enabled only while
        `canProceed` holds, so leaving step 1 needs a visible name and leaving
        step 2 a template. */
    method ClickNext()
      requires Valid()
      modifies this
      ensures Valid()
      ensures old(currentStep) < LastStep && old(CanProceed()) ==> currentStep == old(currentStep) + 1
      ensures !(old(currentStep) < LastStep && old(CanProceed())) ==> currentStep == old(currentStep)
      ensures currentStep == 2 && old(currentStep) == 1 ==>
        exists i :: 0 <= i < |gameName| && !IsWhitespace(gameName[i])
      ensures currentStep == 3 && old(currentStep) == 2 ==> selectedTemplate.Some?
      ensures gameName == old(gameName) && selectedTemplate == old(selectedTemplate) && features == old(features)
    {
      if currentStep < LastStep && CanProceed() {
        HandleNext();
      }
    }

    /** The name input's change handler. */
    method SetGameName(name: string)
      requires Valid()
      modifies this
      ensures Valid() && gameName == name
      ensures currentStep == old(currentStep) && selectedTemplate == old(selectedTemplate) && features == old(features)
    {
      gameName := name;
    }

    /** A template card's click handler. */
    method SelectTemplate(id: int)
      requires Valid()
      modifies this
      ensures Valid() && selectedTemplate == Some(id)
      ensures currentStep == old(currentStep) && gameName == old(gameName) && features == old(features)
    {
      selectedTemplate := Some(id);
    }

    /** A feature button's click handler. */
    method ToggleFeatureClick(f: string)
      requires Valid()
      modifies this
      ensures Valid() && features == ToggleFeature(old(features), f)
      ensures currentStep == old(currentStep) && gameName == old(gameName) && selectedTemplate == old(selectedTemplate)
    {
      features := ToggleFeature(features, f);
    }
  }
}
