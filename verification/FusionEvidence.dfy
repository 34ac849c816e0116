/** What the kinds of evidence are worth, in terms of kinds and scores alone. */
module FusionEvidence {
  import opened Fusion

  /** Shared wording that is more than chance: half of it, or nearly the same text, or the very same. */
  predicate WordingHolds(s: Signal) {
    || ((s.kind.TitleOverlap? || s.kind.HeadingOverlap? || s.kind.KeyphraseOverlap?) && s.score >= 0.5)
    || (s.kind.NearDuplicate? && s.score >= 0.85) || s.kind.ExactDuplicate?
  }

  /** A link between the two: one names the other, or they share half of their dependencies. */
  predicate LinkHolds(s: Signal) {
    s.kind.ExplicitReference? || (s.kind.DependencyOverlap? && s.score >= 0.5)
  }

  predicate IsWording(s: Signal) {
    s.kind.TitleOverlap? || s.kind.HeadingOverlap? || s.kind.KeyphraseOverlap? || s.kind.NearDuplicate? || s.kind.ExactDuplicate?
  }

  predicate IsLink(s: Signal) {
    s.kind.ExplicitReference? || s.kind.DependencyOverlap?
  }

  /** However close a model says two documents are, and wherever they lie, that alone stays weak. */
  lemma {:induction false} ModelAloneIsWeak(signals: seq<Signal>, t: real)
    requires forall s :: s in signals ==> s.kind.EmbeddingSimilarity? || s.kind.ArchiveContext?
    ensures ConfidenceOf(signals, t) == Weak
  {}

  /** What a source declares itself is never weak. */
  lemma {:induction false} DeclarationIsEnough(signals: seq<Signal>, t: real, s: Signal)
    requires s in signals && (s.kind.DeclaredIdentifierMatch? || s.kind.ExplicitReference?)
    ensures ConfidenceOf(signals, t) != Weak
  {
    assert SourceDeclared(s.kind);
    assert Declared(signals);
  }

  /** Where two files lie adds nothing to what they are about. */
  lemma {:induction false} ContextAddsNothing(signals: seq<Signal>, more: seq<Signal>, t: real)
    requires forall s :: s in more ==> s.kind.ArchiveContext?
    ensures ConfidenceOf(signals + more, t) == ConfidenceOf(signals, t)
  {
    forall s | s in more ensures !Supports(s) && !SourceDeclared(s.kind) {}
    hide Supports, SourceDeclared, FamilyOf, IsStrong;
    assert forall s :: s in signals + more <==> s in signals || s in more;
    assert Corroborated(signals + more) <==> Corroborated(signals);
    assert StronglyCorroborated(signals + more, t) <==> StronglyCorroborated(signals, t);
    assert CorroboratedWithin(signals + more, t) <==> CorroboratedWithin(signals, t);
    assert Declared(signals + more) <==> Declared(signals);
  }

  lemma {:induction false} WordingIsStrongIff(s: Signal, t: real)
    requires IsWording(s)
    ensures StronglySupports(s, t) <==> WordingHolds(s)
    ensures FamilyOf(s.kind) == Lexical && Supports(s) && !SourceDeclared(s.kind)
  {}

  /** Wording alone is never strong evidence, and more than weak exactly when two different measures of it hold. */
  lemma {:induction false} WordingAloneIff(signals: seq<Signal>, t: real)
    requires forall s :: s in signals ==> IsWording(s)
    ensures ConfidenceOf(signals, t) != Strong
    ensures ConfidenceOf(signals, t) == Moderate <==>
              exists x, y :: x in signals && y in signals && WordingHolds(x) && WordingHolds(y) && x.kind != y.kind
  {
    forall s | s in signals
      ensures (StronglySupports(s, t) <==> WordingHolds(s)) && FamilyOf(s.kind) == Lexical && !SourceDeclared(s.kind)
    {
      WordingIsStrongIff(s, t);
    }
    hide WordingHolds, StronglySupports, IsWording, Supports, SourceDeclared, FamilyOf;
  }

  /** Links alone are never strong evidence either. */
  lemma {:induction false} LinksAloneAreNotStrong(signals: seq<Signal>, t: real)
    requires forall s :: s in signals ==> IsLink(s)
    ensures ConfidenceOf(signals, t) != Strong
  {
    forall s | s in signals ensures FamilyOf(s.kind) == Graph {}
    hide FamilyOf, StronglySupports;
  }

  datatype Source = Wording | Link | Identifier | Model

  /** The signal holds, and this is where it comes from. */
  predicate HoldsFrom(s: Signal, source: Source, t: real) {
    match source
    case Wording => WordingHolds(s)
    case Link => LinkHolds(s)
    case Identifier => s.kind.DeclaredIdentifierMatch?
    case Model => s.kind.EmbeddingSimilarity? && s.score >= t
  }

  lemma {:induction false} SourceIsFamily(s: Signal, t: real)
    ensures StronglySupports(s, t) <==> exists source :: HoldsFrom(s, source, t)
    ensures forall source :: HoldsFrom(s, source, t) ==> FamilyOf(s.kind) == FamilyFrom(source)
  {
    if StronglySupports(s, t) {
      var source := match FamilyOf(s.kind) case Lexical => Wording case Graph => Link case DeclaredIdentity => Identifier case _ => Model;
      assert HoldsFrom(s, source, t);
    }
  }

  function FamilyFrom(source: Source): Family {
    match source case Wording => Lexical case Link => Graph case Identifier => DeclaredIdentity case Model => SemanticModel
  }

  ghost predicate TwoSources(signals: seq<Signal>, t: real) {
    exists x, y, a, b :: x in signals && y in signals && HoldsFrom(x, a, t) && HoldsFrom(y, b, t) && a != b
  }

  lemma {:induction false} SourcesOfStrong(x: Signal, y: Signal, t: real) returns (a: Source, b: Source)
    requires StronglySupports(x, t) && StronglySupports(y, t) && FamilyOf(x.kind) != FamilyOf(y.kind)
    ensures HoldsFrom(x, a, t) && HoldsFrom(y, b, t) && a != b
  {
    SourceIsFamily(x, t);
    SourceIsFamily(y, t);
    hide HoldsFrom, StronglySupports, FamilyOf;
    a :| HoldsFrom(x, a, t);
    b :| HoldsFrom(y, b, t);
  }

  lemma {:induction false} SourcesAreStrong(x: Signal, y: Signal, a: Source, b: Source, t: real)
    requires HoldsFrom(x, a, t) && HoldsFrom(y, b, t) && a != b
    ensures StronglySupports(x, t) && StronglySupports(y, t) && FamilyOf(x.kind) != FamilyOf(y.kind)
  {
    SourceIsFamily(x, t);
    SourceIsFamily(y, t);
    hide HoldsFrom, StronglySupports, FamilyOf;
  }

  /** Evidence is strong exactly when two signals hold that come from different sources. */
  lemma {:induction false} StrongIff(signals: seq<Signal>, t: real)
    ensures ConfidenceOf(signals, t) == Strong <==> TwoSources(signals, t)
  {
    hide HoldsFrom, StronglySupports, FamilyOf, Corroborated, Declared, CorroboratedWithin;
    if StronglyCorroborated(signals, t) {
      var x, y :| x in signals && y in signals && StronglySupports(x, t) && StronglySupports(y, t) && FamilyOf(x.kind) != FamilyOf(y.kind);
      var a, b := SourcesOfStrong(x, y, t);
    }
    if TwoSources(signals, t) {
      var x, y, a, b :| x in signals && y in signals && HoldsFrom(x, a, t) && HoldsFrom(y, b, t) && a != b;
      SourcesAreStrong(x, y, a, b, t);
    }
  }
}
