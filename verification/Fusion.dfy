/** Pair classification of src/corpus_fusion.ts: evidence is counted by family, never by signal. */
module Fusion {
  import Ordering

  datatype SignalKind =
    | TitleOverlap | HeadingOverlap | KeyphraseOverlap | DeclaredIdentifierMatch | ExplicitReference | DependencyOverlap
    | NearDuplicate | ExactDuplicate | ArchiveContext | EmbeddingSimilarity

  datatype Family = DeclaredIdentity | Graph | Lexical | SemanticModel | Context

  datatype Confidence = Weak | Moderate | Strong

  datatype Signal = Signal(kind: SignalKind, score: real)

  datatype Pair = Pair(id: string, a: string, b: string, signals: seq<Signal>)

  function FamilyOf(kind: SignalKind): Family {
    match kind
    case TitleOverlap | HeadingOverlap | KeyphraseOverlap | NearDuplicate | ExactDuplicate => Lexical
    case DeclaredIdentifierMatch => DeclaredIdentity
    case ExplicitReference | DependencyOverlap => Graph
    case EmbeddingSimilarity => SemanticModel
    case ArchiveContext => Context
  }

  predicate SourceDeclared(kind: SignalKind) {
    kind.DeclaredIdentifierMatch? || kind.ExplicitReference?
  }

  predicate IsStrong(s: Signal, embeddingThreshold: real) {
    match s.kind
    case ArchiveContext => false
    case EmbeddingSimilarity => s.score >= embeddingThreshold
    case DeclaredIdentifierMatch | ExplicitReference | ExactDuplicate => true
    case TitleOverlap | HeadingOverlap | KeyphraseOverlap | DependencyOverlap => s.score >= 0.5
    case NearDuplicate => s.score >= 0.85
  }

  function Rank(c: Confidence): nat {
    match c
    case Weak => 0
    case Moderate => 1
    case Strong => 2
  }

  // ---------- what the class means ----------

  predicate Supports(s: Signal) {
    FamilyOf(s.kind) != Context
  }

  predicate StronglySupports(s: Signal, t: real) {
    Supports(s) && IsStrong(s, t)
  }

  /** Two signals of two different families, context excluded. */
  ghost predicate Corroborated(signals: seq<Signal>) {
    exists x, y :: x in signals && y in signals && Supports(x) && Supports(y) && FamilyOf(x.kind) != FamilyOf(y.kind)
  }

  ghost predicate StronglyCorroborated(signals: seq<Signal>, t: real) {
    exists x, y :: x in signals && y in signals && StronglySupports(x, t) && StronglySupports(y, t)
                   && FamilyOf(x.kind) != FamilyOf(y.kind)
  }

  /** Two strong metrics of different kinds inside one family. */
  ghost predicate CorroboratedWithin(signals: seq<Signal>, t: real) {
    exists x, y :: x in signals && y in signals && StronglySupports(x, t) && StronglySupports(y, t)
                   && FamilyOf(x.kind) == FamilyOf(y.kind) && x.kind != y.kind
  }

  ghost predicate Declared(signals: seq<Signal>) {
    exists x :: x in signals && SourceDeclared(x.kind)
  }

  /** The class of a pair, by what is among its signals; nothing depends on their order. */
  ghost function ConfidenceOf(signals: seq<Signal>, t: real): Confidence {
    if StronglyCorroborated(signals, t) then Strong
    else if Corroborated(signals) || Declared(signals) || CorroboratedWithin(signals, t) then Moderate
    else Weak
  }

  ghost predicate ContextOnly(signals: seq<Signal>) {
    forall x :: x in signals ==> !Supports(x)
  }

  /** The only family beside context is the embedding model's. */
  ghost predicate EmbeddingOnly(signals: seq<Signal>) {
    && (exists x :: x in signals && Supports(x))
    && (forall x :: x in signals && Supports(x) ==> FamilyOf(x.kind) == SemanticModel)
  }

  function Weight(family: Family): Signal -> nat {
    (s: Signal) => if FamilyOf(s.kind) == family then 1 else 0
  }

  function CountFamily(signals: seq<Signal>, family: Family): nat {
    Ordering.Tally(signals, Weight(family))
  }

  // ---------- the classification loop ----------

  datatype Classification = Classification(
    pairId: string, a: string, b: string, confidence: Confidence, supporting: seq<Family>, strong: seq<Family>,
    counts: map<Family, nat>, exactDuplicate: bool, embeddingOnly: bool, contextOnly: bool)

  /** The members of a family set, in code-point order of their names. */
  function InOrder(families: set<Family>): seq<Family> {
    (if Context in families then [Context] else [])
    + (if DeclaredIdentity in families then [DeclaredIdentity] else [])
    + (if Graph in families then [Graph] else [])
    + (if Lexical in families then [Lexical] else [])
    + (if SemanticModel in families then [SemanticModel] else [])
  }

  ghost function SupportingOf(signals: seq<Signal>): set<Family> {
    set s <- signals | Supports(s) :: FamilyOf(s.kind)
  }

  ghost function StrongOf(signals: seq<Signal>, t: real): set<Family> {
    set s <- signals | StronglySupports(s, t) :: FamilyOf(s.kind)
  }

  ghost function StrongKinds(signals: seq<Signal>, t: real, family: Family): set<SignalKind> {
    set s <- signals | StronglySupports(s, t) && FamilyOf(s.kind) == family :: s.kind
  }

  /** A finite set has two members exactly when it holds two different ones. */
  lemma {:induction false} AtLeastTwo<T>(s: set<T>)
    ensures |s| >= 2 <==> exists x, y :: x in s && y in s && x != y
  {
    if |s| >= 2 {
      var x :| x in s;
      assert |s - {x}| >= 1;
      var y :| y in s - {x};
      assert x in s && y in s && x != y;
    }
    if x, y :| x in s && y in s && x != y {
      assert {x, y} <= s && |{x, y}| == 2;
      Ordering.SubsetSize({x, y}, s);
    }
  }

  // What the loop has gathered from the signals read so far.

  ghost predicate Counted(signals: seq<Signal>, counts: map<Family, nat>) {
    forall f :: f in counts && counts[f] == CountFamily(signals, f)
  }

  ghost predicate KindsGathered(signals: seq<Signal>, t: real, kinds: map<Family, set<SignalKind>>) {
    forall f :: (if f in kinds then kinds[f] else {}) == StrongKinds(signals, t, f)
  }

  ghost predicate Flagged(signals: seq<Signal>, exact: bool, declared: bool) {
    (exact <==> exists x :: x in signals && x.kind.ExactDuplicate?) && (declared <==> Declared(signals))
  }

  /** What a classification says about its pair. */
  ghost predicate Classifies(pair: Pair, t: real, c: Classification) {
    && c.pairId == pair.id && c.a == pair.a && c.b == pair.b
    && c.confidence == ConfidenceOf(pair.signals, t)
    && c.supporting == InOrder(SupportingOf(pair.signals)) && c.strong == InOrder(StrongOf(pair.signals, t))
    && Counted(pair.signals, c.counts)
    && (c.exactDuplicate <==> exists x :: x in pair.signals && x.kind.ExactDuplicate?)
    && (c.embeddingOnly <==> EmbeddingOnly(pair.signals)) && (c.contextOnly <==> ContextOnly(pair.signals))
  }

  function Decide(contextOnly: bool, embeddingOnly: bool, supporting: nat, strong: nat, declared: bool, within: bool): Confidence {
    if contextOnly then Weak
    else if embeddingOnly then Weak
    else if supporting >= 2 && strong >= 2 then Strong
    else if supporting >= 2 || declared then Moderate
    else if within then Moderate
    else Weak
  }

  /** What the counters and sets come to, once every signal is read. */
  function Conclude(pair: Pair, counts: map<Family, nat>, supporting: set<Family>, strong: set<Family>,
                    kinds: map<Family, set<SignalKind>>, exact: bool, declared: bool): Classification {
    var within := exists f <- kinds :: |kinds[f]| >= 2;
    var contextOnly := |supporting| == 0;
    var embeddingOnly := |supporting| == 1 && SemanticModel in supporting;
    Classification(pair.id, pair.a, pair.b, Decide(contextOnly, embeddingOnly, |supporting|, |strong|, declared, within),
                   InOrder(supporting), InOrder(strong), counts, exact, embeddingOnly, contextOnly)
  }

  /** What the loop's variables say about the signals read so far. */
  ghost predicate ReadSoFar(signals: seq<Signal>, t: real, counts: map<Family, nat>, supporting: set<Family>, strong: set<Family>,
                            kinds: map<Family, set<SignalKind>>, exact: bool, declared: bool) {
    && Counted(signals, counts) && KindsGathered(signals, t, kinds)
    && supporting == SupportingOf(signals) && strong == StrongOf(signals, t) && Flagged(signals, exact, declared)
  }

  method ClassifyPair(pair: Pair, t: real) returns (c: Classification)
    ensures Classifies(pair, t, c)
  {
    hide ReadSoFar, IsStrong, SourceDeclared, FamilyOf, Conclude, Classifies;
    var counts: map<Family, nat> := map[Lexical := 0, DeclaredIdentity := 0, Graph := 0, SemanticModel := 0, Context := 0];
    var supporting: set<Family>, strong: set<Family> := {}, {};
    var kinds: map<Family, set<SignalKind>> := map[];
    var exact, declared := false, false;
    StartsEmpty(t, counts);
    var i := 0;
    while i < |pair.signals|
      invariant 0 <= i <= |pair.signals|
      invariant ReadSoFar(pair.signals[..i], t, counts, supporting, strong, kinds, exact, declared)
    {
      var s := pair.signals[i];
      assert pair.signals[..i + 1] == pair.signals[..i] + [s];
      OneMoreSignal(pair.signals[..i], s, t, counts, supporting, strong, kinds, exact, declared);
      var family := FamilyOf(s.kind);
      counts := counts[family := counts[family] + 1];
      if s.kind.ExactDuplicate? { exact := true; }
      if family != Context {
        supporting := supporting + {family};
        if IsStrong(s, t) {
          strong := strong + {family};
          kinds := kinds[family := (if family in kinds then kinds[family] else {}) + {s.kind}];
          if SourceDeclared(s.kind) { declared := true; }
        }
      }
      i := i + 1;
    }
    assert pair.signals[..i] == pair.signals;
    Concluded(pair, t, counts, supporting, strong, kinds, exact, declared);
    return Conclude(pair, counts, supporting, strong, kinds, exact, declared);
  }

  /** One turn of the loop. */
  lemma {:induction false} OneMoreSignal(signals: seq<Signal>, s: Signal, t: real, counts: map<Family, nat>, supporting: set<Family>,
                                         strong: set<Family>, kinds: map<Family, set<SignalKind>>, exact: bool, declared: bool)
    requires ReadSoFar(signals, t, counts, supporting, strong, kinds, exact, declared)
    ensures FamilyOf(s.kind) in counts
    ensures var family := FamilyOf(s.kind);
            var supports, strongly := family != Context, family != Context && IsStrong(s, t);
            ReadSoFar(signals + [s], t, counts[family := counts[family] + 1],
                      if supports then supporting + {family} else supporting,
                      if strongly then strong + {family} else strong,
                      if strongly then kinds[family := (if family in kinds then kinds[family] else {}) + {s.kind}] else kinds,
                      exact || s.kind.ExactDuplicate?, declared || (strongly && SourceDeclared(s.kind)))
  {
    CountedAfter(signals, s, counts);
    KindsGatheredAfter(signals, t, s, kinds);
    FamiliesAfter(signals, t, s);
    FlagsAfter(signals, s, exact, declared);
    DeclaredIsStrong(s, t);
    hide Counted, KindsGathered, Flagged, IsStrong, SupportingOf, StrongOf, SourceDeclared, FamilyOf;
  }

  lemma {:induction false} StartsEmpty(t: real, counts: map<Family, nat>)
    requires counts == map[Lexical := 0, DeclaredIdentity := 0, Graph := 0, SemanticModel := 0, Context := 0]
    ensures ReadSoFar([], t, counts, {}, {}, map[], false, false)
  {
    forall f: Family ensures f in counts && counts[f] == 0 {
      match f case Context => case Graph => case Lexical => case DeclaredIdentity => case SemanticModel =>
    }
  }

  lemma {:induction false} Concluded(pair: Pair, t: real, counts: map<Family, nat>, supporting: set<Family>, strong: set<Family>,
                                     kinds: map<Family, set<SignalKind>>, exact: bool, declared: bool)
    requires ReadSoFar(pair.signals, t, counts, supporting, strong, kinds, exact, declared)
    ensures Classifies(pair, t, Conclude(pair, counts, supporting, strong, kinds, exact, declared))
  {
    hide Counted, KindsGathered, SupportingOf, StrongOf, ConfidenceOf, EmbeddingOnly, ContextOnly, Declared, CorroboratedWithin,
         InOrder, Decide;
    var within := exists f <- kinds :: |kinds[f]| >= 2;
    WithinFamily(pair.signals, t, kinds, within);
    OneFamily(pair.signals);
    DecisionIsMeaning(pair.signals, t, declared, within);
  }

  lemma {:induction false} FamiliesAfter(signals: seq<Signal>, t: real, s: Signal)
    ensures SupportingOf(signals + [s]) == SupportingOf(signals) + (if Supports(s) then {FamilyOf(s.kind)} else {})
    ensures StrongOf(signals + [s], t) == StrongOf(signals, t) + (if StronglySupports(s, t) then {FamilyOf(s.kind)} else {})
  {
    hide Supports, StronglySupports, FamilyOf;
  }

  lemma {:induction false} KindsAfter(signals: seq<Signal>, t: real, s: Signal, f: Family)
    ensures StrongKinds(signals + [s], t, f)
            == StrongKinds(signals, t, f) + (if StronglySupports(s, t) && FamilyOf(s.kind) == f then {s.kind} else {})
  {
    hide Supports, StronglySupports, FamilyOf;
  }

  lemma {:induction false} CountedAfter(signals: seq<Signal>, s: Signal, counts: map<Family, nat>)
    requires Counted(signals, counts)
    ensures FamilyOf(s.kind) in counts
    ensures Counted(signals + [s], counts[FamilyOf(s.kind) := counts[FamilyOf(s.kind)] + 1])
  {
    hide FamilyOf;
    assert (signals + [s])[..|signals|] == signals;
  }

  lemma {:induction false} KindsGatheredAfter(signals: seq<Signal>, t: real, s: Signal, kinds: map<Family, set<SignalKind>>)
    requires KindsGathered(signals, t, kinds)
    ensures var family := FamilyOf(s.kind);
            KindsGathered(signals + [s], t, if StronglySupports(s, t)
                                            then kinds[family := (if family in kinds then kinds[family] else {}) + {s.kind}]
                                            else kinds)
  {
    hide Supports, StronglySupports, FamilyOf, StrongKinds;
    forall f ensures StrongKinds(signals + [s], t, f)
                     == StrongKinds(signals, t, f) + (if StronglySupports(s, t) && FamilyOf(s.kind) == f then {s.kind} else {})
    {
      KindsAfter(signals, t, s, f);
    }
  }

  lemma {:induction false} FlagsAfter(signals: seq<Signal>, s: Signal, exact: bool, declared: bool)
    requires Flagged(signals, exact, declared)
    ensures Flagged(signals + [s], exact || s.kind.ExactDuplicate?, declared || SourceDeclared(s.kind))
  {
    hide SourceDeclared;
    assert s in signals + [s];
    assert forall x :: x in signals + [s] <==> x in signals || x == s;
  }

  lemma {:induction false} DeclaredIsStrong(s: Signal, t: real)
    ensures SourceDeclared(s.kind) ==> Supports(s) && IsStrong(s, t)
  {}

  // ---------- set sizes say what the definitions say ----------

  lemma {:induction false} TwoSupporting(signals: seq<Signal>)
    ensures |SupportingOf(signals)| >= 2 <==> Corroborated(signals)
  {
    hide FamilyOf, Supports;
    AtLeastTwo(SupportingOf(signals));
    if f, g :| f in SupportingOf(signals) && g in SupportingOf(signals) && f != g {
      var x :| x in signals && Supports(x) && FamilyOf(x.kind) == f;
      var y :| y in signals && Supports(y) && FamilyOf(y.kind) == g;
    }
    if x, y :| x in signals && y in signals && Supports(x) && Supports(y) && FamilyOf(x.kind) != FamilyOf(y.kind) {
      assert FamilyOf(x.kind) in SupportingOf(signals) && FamilyOf(y.kind) in SupportingOf(signals);
    }
  }

  lemma {:induction false} TwoStrong(signals: seq<Signal>, t: real)
    ensures |StrongOf(signals, t)| >= 2 <==> StronglyCorroborated(signals, t)
  {
    hide FamilyOf, StronglySupports;
    AtLeastTwo(StrongOf(signals, t));
    if f, g :| f in StrongOf(signals, t) && g in StrongOf(signals, t) && f != g {
      var x :| x in signals && StronglySupports(x, t) && FamilyOf(x.kind) == f;
      var y :| y in signals && StronglySupports(y, t) && FamilyOf(y.kind) == g;
    }
    if x, y :| x in signals && y in signals && StronglySupports(x, t) && StronglySupports(y, t)
               && FamilyOf(x.kind) != FamilyOf(y.kind) {
      assert FamilyOf(x.kind) in StrongOf(signals, t) && FamilyOf(y.kind) in StrongOf(signals, t);
    }
  }

  lemma {:induction false} InStrongKinds(signals: seq<Signal>, t: real, f: Family, k: SignalKind)
    ensures k in StrongKinds(signals, t, f)
            <==> exists x :: x in signals && StronglySupports(x, t) && FamilyOf(x.kind) == f && x.kind == k
  {
    hide FamilyOf, StronglySupports;
  }

  lemma {:induction false} TwoKinds(signals: seq<Signal>, t: real, f: Family)
    ensures |StrongKinds(signals, t, f)| >= 2
            <==> exists x, y :: x in signals && y in signals && StronglySupports(x, t) && StronglySupports(y, t)
                                && FamilyOf(x.kind) == f == FamilyOf(y.kind) && x.kind != y.kind
  {
    hide FamilyOf, StronglySupports, StrongKinds;
    AtLeastTwo(StrongKinds(signals, t, f));
    if k, l :| k in StrongKinds(signals, t, f) && l in StrongKinds(signals, t, f) && k != l {
      InStrongKinds(signals, t, f, k);
      InStrongKinds(signals, t, f, l);
    }
    if x, y :| x in signals && y in signals && StronglySupports(x, t) && StronglySupports(y, t)
               && FamilyOf(x.kind) == f == FamilyOf(y.kind) && x.kind != y.kind {
      InStrongKinds(signals, t, f, x.kind);
      InStrongKinds(signals, t, f, y.kind);
    }
  }

  lemma {:induction false} OneFamily(signals: seq<Signal>)
    ensures |SupportingOf(signals)| == 0 <==> ContextOnly(signals)
    ensures |SupportingOf(signals)| == 1 && SemanticModel in SupportingOf(signals) <==> EmbeddingOnly(signals)
  {
    hide FamilyOf, Supports;
    if x :| x in signals && Supports(x) { assert FamilyOf(x.kind) in SupportingOf(signals); }
    if EmbeddingOnly(signals) {
      assert SupportingOf(signals) == {SemanticModel};
    }
    if |SupportingOf(signals)| == 1 && SemanticModel in SupportingOf(signals) {
      AtLeastTwo(SupportingOf(signals));
      forall x | x in signals && Supports(x) ensures FamilyOf(x.kind) == SemanticModel {
        assert FamilyOf(x.kind) in SupportingOf(signals);
      }
    }
  }

  /** The branches of the decision, said of the signals: an embedding alone corroborates nothing. */
  lemma {:induction false} DecisionIsMeaning(signals: seq<Signal>, t: real, declared: bool, within: bool)
    requires (declared <==> Declared(signals)) && (within <==> CorroboratedWithin(signals, t))
    ensures Decide(ContextOnly(signals), EmbeddingOnly(signals), |SupportingOf(signals)|, |StrongOf(signals, t)|, declared, within)
            == ConfidenceOf(signals, t)
  {
    TwoSupporting(signals);
    TwoStrong(signals, t);
    NothingCorroborates(signals, t);
    hide SupportingOf, StrongOf, Corroborated, StronglyCorroborated, Declared, CorroboratedWithin, EmbeddingOnly, ContextOnly;
  }

  lemma {:induction false} NothingCorroborates(signals: seq<Signal>, t: real)
    ensures StronglyCorroborated(signals, t) ==> Corroborated(signals)
    ensures EmbeddingOnly(signals) || ContextOnly(signals) ==>
      !Declared(signals) && !CorroboratedWithin(signals, t) && !Corroborated(signals)
  {}

  lemma {:induction false} WithinFamily(signals: seq<Signal>, t: real, kinds: map<Family, set<SignalKind>>, within: bool)
    requires KindsGathered(signals, t, kinds)
    requires within <==> exists f <- kinds :: |kinds[f]| >= 2
    ensures within <==> CorroboratedWithin(signals, t)
  {
    hide FamilyOf, StronglySupports, StrongKinds;
    forall f ensures |StrongKinds(signals, t, f)| >= 2
                     <==> exists x, y :: x in signals && y in signals && StronglySupports(x, t) && StronglySupports(y, t)
                                && FamilyOf(x.kind) == f == FamilyOf(y.kind) && x.kind != y.kind
    {
      TwoKinds(signals, t, f);
    }
    if f :| f in kinds && |kinds[f]| >= 2 {
      assert kinds[f] == StrongKinds(signals, t, f);
    }
    if x, y :| x in signals && y in signals && StronglySupports(x, t) && StronglySupports(y, t)
               && FamilyOf(x.kind) == FamilyOf(y.kind) && x.kind != y.kind {
      assert |StrongKinds(signals, t, FamilyOf(x.kind))| >= 2;
      assert FamilyOf(x.kind) in kinds;
    }
  }

  // ---------- which pairs become edges ----------

  predicate IsTopicEdge(c: Classification) {
    !c.contextOnly && !c.embeddingOnly && c.confidence != Weak
  }

  predicate IsProjectEligibleEdge(c: Classification)
    requires forall f: Family :: f in c.counts
  {
    if c.contextOnly || c.embeddingOnly then false
    else if c.counts[DeclaredIdentity] > 0 then true
    else if c.counts[Graph] > 0 then true
    else
      var independent := |c.supporting|;
      var hasQualifying := exists f <- c.supporting :: f == DeclaredIdentity || f == Graph || f == Lexical;
      independent >= 2 && hasQualifying
  }

  ghost predicate HasFamily(signals: seq<Signal>, family: Family) {
    exists x :: x in signals && FamilyOf(x.kind) == family
  }

  /** What may join two artifacts: a declaration, a graph signal, or words with a model's agreement. */
  ghost predicate ProjectEvidence(signals: seq<Signal>) {
    || HasFamily(signals, DeclaredIdentity) || HasFamily(signals, Graph)
    || (HasFamily(signals, Lexical) && HasFamily(signals, SemanticModel))
  }

  lemma {:induction false} CountIsPresence(signals: seq<Signal>, family: Family)
    ensures CountFamily(signals, family) > 0 <==> HasFamily(signals, family)
  {
    hide FamilyOf;
    if signals == [] {
    } else {
      var n := |signals| - 1;
      CountIsPresence(signals[..n], family);
      assert signals[n] in signals;
      assert forall x :: x in signals <==> x in signals[..n] || x == signals[n];
    }
  }

  lemma {:induction false} SupportingIsPresence(signals: seq<Signal>, family: Family)
    requires family != Context
    ensures family in SupportingOf(signals) <==> HasFamily(signals, family)
  {}

  lemma {:induction false} InOrderHolds(families: set<Family>)
    ensures forall f :: f in InOrder(families) <==> f in families
    ensures |InOrder(families)|
            == (if Context in families then 1 else 0) + (if DeclaredIdentity in families then 1 else 0)
               + (if Graph in families then 1 else 0) + (if Lexical in families then 1 else 0)
               + (if SemanticModel in families then 1 else 0)
  {
    forall f ensures f in InOrder(families) <==> f in families {
      match f case Context => case Graph => case Lexical => case DeclaredIdentity => case SemanticModel =>
    }
  }

  lemma {:induction false} ContextSupportsNothing(signals: seq<Signal>)
    ensures Context !in SupportingOf(signals)
  {}

  /** Admission into one body of work, said of the evidence: a shared folder or a model's score alone never admits. */
  lemma {:induction false} ProjectEdgeIffEvidence(pair: Pair, t: real, c: Classification)
    requires Classifies(pair, t, c)
    ensures forall f: Family :: f in c.counts
    ensures IsProjectEligibleEdge(c) <==> ProjectEvidence(pair.signals)
  {
    hide SupportingOf, HasFamily, ConfidenceOf, StrongOf, EmbeddingOnly, ContextOnly, CountFamily, InOrder;
    var s := pair.signals;
    CountIsPresence(s, DeclaredIdentity);
    CountIsPresence(s, Graph);
    SupportingIsPresence(s, DeclaredIdentity);
    SupportingIsPresence(s, Graph);
    SupportingIsPresence(s, Lexical);
    SupportingIsPresence(s, SemanticModel);
    ContextSupportsNothing(s);
    OneFamily(s);
    FamiliesQualify(SupportingOf(s));
  }

  /** The same test on a set of families, context apart. */
  lemma {:induction false} FamiliesQualify(families: set<Family>)
    requires Context !in families
    ensures var list := InOrder(families);
            var qualifying := exists f <- list :: f == DeclaredIdentity || f == Graph || f == Lexical;
            |families| != 0 && !(|families| == 1 && SemanticModel in families)
            && (DeclaredIdentity in families || Graph in families || (|list| >= 2 && qualifying))
            <==> DeclaredIdentity in families || Graph in families || (Lexical in families && SemanticModel in families)
  {
    InOrderHolds(families);
    OnlyOne(families, SemanticModel);
    hide InOrder;
  }

  lemma {:induction false} OnlyOne<T>(s: set<T>, x: T)
    ensures |s| == 1 && x in s <==> s == {x}
    ensures |s| == 0 <==> s == {}
  {
    if |s| == 1 && x in s {
      assert |s - {x}| == 0;
    }
  }

  /** A topic edge is a pair whose evidence is more than weak; the two other tests add nothing. */
  lemma {:induction false} TopicEdgeIffNotWeak(pair: Pair, t: real, c: Classification)
    requires Classifies(pair, t, c)
    ensures IsTopicEdge(c) <==> ConfidenceOf(pair.signals, t) != Weak
  {
    NothingCorroborates(pair.signals, t);
    hide Corroborated, StronglyCorroborated, Declared, CorroboratedWithin, EmbeddingOnly, ContextOnly, SupportingOf, StrongOf;
  }

  // ---------- more evidence never weakens ----------

  /** Every signal of one list is in the other. */
  predicate Within(signals: seq<Signal>, more: seq<Signal>) {
    forall x :: x in signals ==> x in more
  }

  lemma {:induction false} MoreCorroborated(signals: seq<Signal>, more: seq<Signal>, t: real)
    requires Within(signals, more)
    ensures Corroborated(signals) ==> Corroborated(more)
    ensures StronglyCorroborated(signals, t) ==> StronglyCorroborated(more, t)
    ensures CorroboratedWithin(signals, t) ==> CorroboratedWithin(more, t)
    ensures Declared(signals) ==> Declared(more)
    ensures forall f :: HasFamily(signals, f) ==> HasFamily(more, f)
  {
    hide Supports, StronglySupports, FamilyOf, SourceDeclared;
  }

  /** Added signals never lower the class of a pair, and never take a topic or project edge away. */
  lemma {:induction false} MoreEvidenceNeverWeakens(signals: seq<Signal>, more: seq<Signal>, t: real)
    requires Within(signals, more)
    ensures Rank(ConfidenceOf(signals, t)) <= Rank(ConfidenceOf(more, t))
    ensures ConfidenceOf(signals, t) != Weak ==> ConfidenceOf(more, t) != Weak
    ensures ProjectEvidence(signals) ==> ProjectEvidence(more)
  {
    MoreCorroborated(signals, more, t);
    hide Corroborated, StronglyCorroborated, Declared, CorroboratedWithin, HasFamily;
  }

  /** Nor does a classification lose its class or its edges when its pair is given more signals. */
  lemma {:induction false} MoreEvidenceKeepsEdges(pair: Pair, more: seq<Signal>, t: real, before: Classification, after: Classification)
    requires Within(pair.signals, more)
    requires Classifies(pair, t, before) && Classifies(pair.(signals := more), t, after)
    ensures Rank(before.confidence) <= Rank(after.confidence)
    ensures forall f: Family :: f in before.counts && f in after.counts
    ensures IsTopicEdge(before) ==> IsTopicEdge(after)
    ensures IsProjectEligibleEdge(before) ==> IsProjectEligibleEdge(after)
  {
    ClassOf(pair, t, before);
    ClassOf(pair.(signals := more), t, after);
    hide Classifies, ConfidenceOf, IsTopicEdge, IsProjectEligibleEdge, ProjectEvidence, Within;
    MoreEvidenceNeverWeakens(pair.signals, more, t);
    TopicEdgeIffNotWeak(pair, t, before);
    TopicEdgeIffNotWeak(pair.(signals := more), t, after);
    ProjectEdgeIffEvidence(pair, t, before);
    ProjectEdgeIffEvidence(pair.(signals := more), t, after);
  }

  lemma {:induction false} ClassOf(pair: Pair, t: real, c: Classification)
    requires Classifies(pair, t, c)
    ensures c.confidence == ConfidenceOf(pair.signals, t)
  {}

  lemma {:induction false} CountIsOrderFree(signals: seq<Signal>, other: seq<Signal>, family: Family)
    requires multiset(signals) == multiset(other)
    ensures CountFamily(signals, family) == CountFamily(other, family)
  {
    Ordering.TallyIsOrderFree(signals, other, Weight(family));
  }

  lemma {:induction false} SameSignalsSameSets(signals: seq<Signal>, other: seq<Signal>, t: real)
    requires Within(signals, other) && Within(other, signals)
    ensures SupportingOf(signals) == SupportingOf(other) && StrongOf(signals, t) == StrongOf(other, t)
    ensures EmbeddingOnly(signals) <==> EmbeddingOnly(other)
    ensures ContextOnly(signals) <==> ContextOnly(other)
  {
    hide Supports, StronglySupports, FamilyOf;
  }

  lemma {:induction false} SameMultisetSameSignals(signals: seq<Signal>, other: seq<Signal>)
    requires multiset(signals) == multiset(other)
    ensures Within(signals, other) && Within(other, signals)
  {
    assert forall x :: x in signals ==> x in multiset(other);
    assert forall x :: x in other ==> x in multiset(signals);
  }

  /** Nothing a classification says depends on the order of the signals. */
  lemma {:induction false} SignalOrderIsIrrelevant(pair: Pair, signals: seq<Signal>, t: real, c: Classification)
    requires multiset(pair.signals) == multiset(signals) && Classifies(pair, t, c)
    ensures Classifies(pair.(signals := signals), t, c)
  {
    hide Supports, StronglySupports, FamilyOf, StronglyCorroborated, Corroborated, CorroboratedWithin, Declared, CountFamily,
         InOrder, SupportingOf, StrongOf, EmbeddingOnly, ContextOnly, Within;
    SameMultisetSameSignals(pair.signals, signals);
    SameSignalsSameSets(pair.signals, signals, t);
    MoreCorroborated(pair.signals, signals, t);
    MoreCorroborated(signals, pair.signals, t);
    forall f ensures CountFamily(pair.signals, f) == CountFamily(signals, f) { CountIsOrderFree(pair.signals, signals, f); }
    assert Within(pair.signals, signals) && Within(signals, pair.signals);
    SameExact(pair.signals, signals);
  }

  lemma {:induction false} SameExact(signals: seq<Signal>, other: seq<Signal>)
    requires Within(signals, other) && Within(other, signals)
    ensures (exists x :: x in signals && x.kind.ExactDuplicate?) <==> (exists x :: x in other && x.kind.ExactDuplicate?)
  {}
}
