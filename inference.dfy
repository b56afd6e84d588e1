/** The enumeration driver of the heredity program (lines 48-85 of main in
    heredity/heredity.py): every set of people who might show the trait that
    agrees with the observed traits, and for each every way of giving people one
    or two copies of the gene, contributes its joint probability to the
    accumulator, which is then normalised.

    The specification of the result: a hypothesis is a triple of sets
    (oneGene, twoGenes, haveTrait); the hypothesis space is every triple the
    loops visit; the mass of a bucket (a person's gene count, a person's trait,
    or everything) is the sum of the joint probabilities of the hypotheses that
    fall into it.  The driver ends with each person's posterior: the mass of each
    bucket divided by the total mass.
 */
module HeredityInference {
  import opened Wrappers
  import opened RealFolds
  import opened Heredity
  import opened HeredityMarginals

  // ---------------------------------------------------------------------
  // powerset

  /** powerset: the subsets of s.  The source returns them as a list in the
      order itertools produces (by size); only the collection is modelled. */
  function Powerset(s: set<string>): (r: set<set<string>>)
    ensures forall t :: t in r <==> t <= s
  {
    set t | t <= s
  }

  function Pow2(n: nat): nat
  {
    if n == 0 then 1 else 2 * Pow2(n - 1)
  }

  /** Each set of the family with x added. */
  function AddToEach(family: set<set<string>>, x: string): set<set<string>>
  {
    set t | t in family :: t + {x}
  }

  /** Adding x to each of a family of sets that lack x gives as many sets. */
  lemma {:induction false} AddToEachSize(family: set<set<string>>, x: string)
    requires forall t :: t in family ==> x !in t
    ensures |AddToEach(family, x)| == |family|
    decreases family
  {
    if family != {} {
      var a :| a in family;
      var rest := family - {a};
      AddToEachSize(rest, x);
      AddToEachSplit(family, a, x);
      AddToEachFresh(rest, a, x);
    }
  }

  lemma AddToEachSplit(family: set<set<string>>, a: set<string>, x: string)
    requires a in family
    ensures AddToEach(family, x) == AddToEach(family - {a}, x) + {a + {x}}
  {
  }

  /** a + {x} is not among the sets of a family built from sets lacking x,
      none of them a. */
  lemma AddToEachFresh(rest: set<set<string>>, a: set<string>, x: string)
    requires a !in rest && x !in a
    requires forall t :: t in rest ==> x !in t
    ensures a + {x} !in AddToEach(rest, x)
  {
    forall b | b in rest
      ensures b + {x} != a + {x}
    {
      assert (b + {x}) - {x} == b && (a + {x}) - {x} == a;
    }
  }

  /** The subsets of s split into those without x and those with x. */
  lemma PowersetSplit(s: set<string>, x: string)
    requires x in s
    ensures Powerset(s) == Powerset(s - {x}) + AddToEach(Powerset(s - {x}), x)
    ensures Powerset(s - {x}) * AddToEach(Powerset(s - {x}), x) == {}
  {
    var without := Powerset(s - {x});
    forall t | t <= s
      ensures t in without + AddToEach(without, x)
    {
      if x in t {
        assert t - {x} in without;
        assert t == (t - {x}) + {x};
      }
    }
  }

  lemma DisjointUnionSize(a: set<set<string>>, b: set<set<string>>)
    requires a * b == {}
    ensures |a + b| == |a| + |b|
  {
  }

  lemma PowersetOfEmpty()
    ensures Powerset({}) == {{}}
  {
    assert {} in Powerset({});
    forall t | t in Powerset({})
      ensures t == {}
    {
      assert t <= {};
    }
  }

  /** powerset(s) has 2^|s| members, like the list the source builds. */
  lemma {:induction false} PowersetSize(s: set<string>)
    ensures |Powerset(s)| == Pow2(|s|)
    decreases |s|
  {
    if s == {} {
      PowersetOfEmpty();
    } else {
      var x :| x in s;
      PowersetSize(s - {x});
      PowersetDoubles(s, x);
    }
  }

  /** Adding an element to a set doubles the number of its subsets. */
  lemma PowersetDoubles(s: set<string>, x: string)
    requires x in s
    ensures |Powerset(s)| == 2 * |Powerset(s - {x})|
  {
    var without := Powerset(s - {x});
    var with := AddToEach(without, x);
    PowersetSplit(s, x);
    AddToEachSize(without, x);
    DisjointUnionSize(without, with);
  }

  // ---------------------------------------------------------------------
  // The evidence filter

  /** The people whose trait is recorded as t. */
  function Observed(people: People, t: bool): set<string>
  {
    set k | k in people && people[k].knownTrait == Some(t)
  }

  /** fails_evidence: some person with a recorded trait disagrees with their
      membership in haveTrait.  Equivalently, a trait set passes exactly when it
      contains everyone observed with the trait and nobody observed without it. */
  function FailsEvidence(people: People, haveTrait: set<string>): (r: bool)
    ensures !r <==> Observed(people, true) <= haveTrait && Observed(people, false) !! haveTrait
  {
    exists person :: person in people && people[person].knownTrait.Some? && people[person].knownTrait.value != (person in haveTrait)
  }

  // ---------------------------------------------------------------------
  // The hypothesis space and the masses

  /** One iteration of the innermost loop: who has one copy, who has two, who
      shows the trait. */
  datatype Hypothesis = Hypothesis(one: set<string>, two: set<string>, have: set<string>)

  /** The hypotheses the innermost loop visits for fixed trait and one-copy
      sets, twoGenes ranging over twos. */
  ghost function Row(one: set<string>, have: set<string>, twos: set<set<string>>): set<Hypothesis>
  {
    set two | two in twos :: Hypothesis(one, two, have)
  }

  /** The hypotheses the two inner loops visit for a fixed trait set: oneGene
      ranging over ones, twoGenes over the subsets of the other names. */
  ghost function Block(names: set<string>, have: set<string>, ones: set<set<string>>): set<Hypothesis>
  {
    set one, two | one in ones && two in Powerset(names - one) :: Hypothesis(one, two, have)
  }

  /** The hypotheses the three loops visit for the trait sets in haves: those
      that pass the evidence filter, with every split into one and two copies. */
  ghost function Layer(people: People, haves: set<set<string>>): set<Hypothesis>
  {
    set have, one, two | have in haves && !FailsEvidence(people, have) && one in Powerset(people.Keys)
      && two in Powerset(people.Keys - one) :: Hypothesis(one, two, have)
  }

  /** The hypothesis space: everything the loops visit. */
  ghost function Space(people: People): set<Hypothesis>
  {
    Layer(people, Powerset(people.Keys))
  }

  lemma RowMember(one: set<string>, have: set<string>, twos: set<set<string>>, h: Hypothesis)
    ensures h in Row(one, have, twos) <==> h.one == one && h.have == have && h.two in twos
  {
    if h.one == one && h.have == have && h.two in twos {
      assert h == Hypothesis(one, h.two, have);
    }
  }

  lemma BlockMember(names: set<string>, have: set<string>, ones: set<set<string>>, h: Hypothesis)
    ensures h in Block(names, have, ones) <==> h.have == have && h.one in ones && h.two <= names - h.one
  {
    if h.have == have && h.one in ones && h.two <= names - h.one {
      assert h.two in Powerset(names - h.one);
      assert h == Hypothesis(h.one, h.two, have);
    }
  }

  lemma LayerMember(people: People, haves: set<set<string>>, h: Hypothesis)
    ensures h in Layer(people, haves) <==>
      h.have in haves && !FailsEvidence(people, h.have) && h.one <= people.Keys && h.two <= people.Keys - h.one
  {
    if h.have in haves && !FailsEvidence(people, h.have) && h.one <= people.Keys && h.two <= people.Keys - h.one {
      assert h.one in Powerset(people.Keys) && h.two in Powerset(people.Keys - h.one);
      assert h == Hypothesis(h.one, h.two, h.have);
    }
  }

  /** A hypothesis is in the space exactly when its three sets are drawn from
      the pedigree, the two-copy set avoids the one-copy set, and the trait set
      passes the evidence filter. */
  lemma SpaceMember(people: People, h: Hypothesis)
    ensures h in Space(people) <==>
      h.have <= people.Keys && !FailsEvidence(people, h.have) && h.one <= people.Keys && h.two <= people.Keys - h.one
  {
    LayerMember(people, Powerset(people.Keys), h);
  }

  lemma RowGrow(one: set<string>, have: set<string>, twos: set<set<string>>, two: set<string>)
    ensures Row(one, have, twos + {two}) == Row(one, have, twos) + {Hypothesis(one, two, have)}
  {
    forall h
      ensures h in Row(one, have, twos + {two}) <==> h in Row(one, have, twos) + {Hypothesis(one, two, have)}
    {
      RowMember(one, have, twos + {two}, h);
      RowMember(one, have, twos, h);
    }
  }

  lemma BlockGrow(names: set<string>, have: set<string>, ones: set<set<string>>, one: set<string>)
    ensures Block(names, have, ones + {one}) == Block(names, have, ones) + Row(one, have, Powerset(names - one))
  {
    forall h
      ensures h in Block(names, have, ones + {one}) <==> h in Block(names, have, ones) + Row(one, have, Powerset(names - one))
    {
      BlockMember(names, have, ones + {one}, h);
      BlockMember(names, have, ones, h);
      RowMember(one, have, Powerset(names - one), h);
    }
  }

  lemma LayerGrow(people: People, haves: set<set<string>>, have: set<string>)
    requires !FailsEvidence(people, have)
    ensures Layer(people, haves + {have}) == Layer(people, haves) + Block(people.Keys, have, Powerset(people.Keys))
  {
    forall h
      ensures h in Layer(people, haves + {have}) <==> h in Layer(people, haves) + Block(people.Keys, have, Powerset(people.Keys))
    {
      LayerMember(people, haves + {have}, h);
      LayerMember(people, haves, h);
      BlockMember(people.Keys, have, Powerset(people.Keys), h);
    }
  }

  /** A trait set that fails the evidence filter adds nothing. */
  lemma LayerSkip(people: People, haves: set<set<string>>, have: set<string>)
    requires FailsEvidence(people, have)
    ensures Layer(people, haves + {have}) == Layer(people, haves)
  {
    forall h
      ensures h in Layer(people, haves + {have}) <==> h in Layer(people, haves)
    {
      LayerMember(people, haves + {have}, h);
      LayerMember(people, haves, h);
    }
  }

  /** The trait sets a layer is built from are drawn from the pedigree, so
      the layer lies in the space. */
  lemma LayerInSpace(people: People, haves: set<set<string>>, h: Hypothesis)
    requires haves <= Powerset(people.Keys) && h in Layer(people, haves)
    ensures h in Space(people)
  {
    LayerMember(people, haves, h);
    SpaceMember(people, h);
  }

  /** What the accumulator sums: a person's gene count, a person's trait, or
      everything (the total that normalize divides by). */
  datatype Bucket = GeneOf(person: string, g: Copies) | TraitOf(person: string, t: bool) | Whole

  /** Whether hypothesis h falls into bucket b. */
  predicate InBucket(b: Bucket, h: Hypothesis)
  {
    match b
    case GeneOf(k, g) => GetGeneProb(k, h.one, h.two).0 == g
    case TraitOf(k, t) => (k in h.have) == t
    case Whole => true
  }

  /** The masses below are stated for any table J of weights per hypothesis;
      the program's table is JointTable. */
  ghost function Weights(J: map<Hypothesis, real>, b: Bucket): (w: map<Hypothesis, real>)
    ensures w.Keys == J.Keys
  {
    map h | h in J :: if InBucket(b, h) then J[h] else 0.0
  }

  /** The mass of bucket b over the hypotheses V. */
  ghost function Mass(J: map<Hypothesis, real>, b: Bucket, V: set<Hypothesis>): real
    requires V <= J.Keys
  {
    Sum(Weights(J, b), V)
  }

  /** A person's accumulator entry once the hypotheses V have been added. */
  ghost function MarginalOf(J: map<Hypothesis, real>, k: string, V: set<Hypothesis>): Marginal
    requires V <= J.Keys
  {
    Marginal(Mass(J, GeneOf(k, 0), V), Mass(J, GeneOf(k, 1), V), Mass(J, GeneOf(k, 2), V),
             Mass(J, TraitOf(k, true), V), Mass(J, TraitOf(k, false), V))
  }

  /** The whole accumulator once the hypotheses V have been added. */
  ghost function Tally(people: People, J: map<Hypothesis, real>, V: set<Hypothesis>): (t: map<string, Marginal>)
    requires V <= J.Keys
    ensures t.Keys == people.Keys
  {
    map k | k in people :: MarginalOf(J, k, V)
  }

  /** Before any hypothesis is added every entry is blank, as the source
      initialises it. */
  lemma TallyEmpty(people: People, J: map<Hypothesis, real>)
    ensures Tally(people, J, {}) == map k | k in people :: Blank
  {
    forall k | k in people
      ensures MarginalOf(J, k, {}) == Blank
    {
      forall b: Bucket
        ensures Mass(J, b, {}) == 0.0
      {
        SumZero(Weights(J, b), {});
      }
    }
  }

  /** Adding one more hypothesis to a person's tally is what update does to
      their entry with that hypothesis' weight. */
  lemma MarginalStep(J: map<Hypothesis, real>, k: string, V: set<Hypothesis>, h: Hypothesis)
    requires V <= J.Keys && h in J && h !in V
    ensures MarginalOf(J, k, V + {h}) == AddJoint(MarginalOf(J, k, V), k, h.one, h.two, h.have, J[h])
  {
    forall b: Bucket
      ensures Mass(J, b, V + {h}) == Mass(J, b, V) + (if InBucket(b, h) then J[h] else 0.0)
    {
      SumAdd(Weights(J, b), V, h);
    }
    var after := MarginalOf(J, k, V + {h});
    var added := AddJoint(MarginalOf(J, k, V), k, h.one, h.two, h.have, J[h]);
    assert after.Gene(0) == added.Gene(0) && after.Gene(1) == added.Gene(1) && after.Gene(2) == added.Gene(2);
    assert after.Trait(true) == added.Trait(true) && after.Trait(false) == added.Trait(false);
  }

  lemma SameEntries(a: map<string, Marginal>, b: map<string, Marginal>)
    requires a.Keys == b.Keys && forall k :: k in a ==> a[k] == b[k]
    ensures a == b
  {
  }

  /** Hence update, called with hypothesis h and its weight, takes the tally
      of V to the tally of V + {h}. */
  lemma TallyStep(people: People, J: map<Hypothesis, real>, V: set<Hypothesis>, h: Hypothesis,
                  before: map<string, Marginal>, after: map<string, Marginal>)
    requires V <= J.Keys && h in J && h !in V
    requires before == Tally(people, J, V) && after.Keys == before.Keys
    requires forall k :: k in after ==> after[k] == AddJoint(before[k], k, h.one, h.two, h.have, J[h])
    ensures after == Tally(people, J, V + {h})
  {
    var next := Tally(people, J, V + {h});
    forall k | k in people
      ensures after[k] == next[k]
    {
      assert before[k] == MarginalOf(J, k, V);
      MarginalStep(J, k, V, h);
      assert next[k] == MarginalOf(J, k, V + {h});
    }
    SameEntries(after, next);
  }

  /** Every hypothesis falls into exactly one gene bucket and exactly one trait
      bucket of each person, so each person's gene weights and trait weights
      both add up to the total mass. */
  lemma {:induction false} MarginalTotals(J: map<Hypothesis, real>, k: string, V: set<Hypothesis>)
    requires V <= J.Keys
    ensures MarginalOf(J, k, V).GeneTotal() == Mass(J, Whole, V)
    ensures MarginalOf(J, k, V).TraitTotal() == Mass(J, Whole, V)
    decreases V
  {
    if V != {} {
      var h :| h in V;
      SumPick(Weights(J, GeneOf(k, 0)), V, h);
      SumPick(Weights(J, GeneOf(k, 1)), V, h);
      SumPick(Weights(J, GeneOf(k, 2)), V, h);
      SumPick(Weights(J, TraitOf(k, true)), V, h);
      SumPick(Weights(J, TraitOf(k, false)), V, h);
      SumPick(Weights(J, Whole), V, h);
      MarginalTotals(J, k, V - {h});
    } else {
      SumZero(Weights(J, Whole), V);
      SumZero(Weights(J, GeneOf(k, 0)), V);
      SumZero(Weights(J, GeneOf(k, 1)), V);
      SumZero(Weights(J, GeneOf(k, 2)), V);
      SumZero(Weights(J, TraitOf(k, true)), V);
      SumZero(Weights(J, TraitOf(k, false)), V);
    }
  }

  /** Each person's entry after all hypotheses are added, divided through by
      the total mass: the mass of each bucket over the total. */
  ghost function PosteriorOf(J: map<Hypothesis, real>, k: string): (r: Marginal)
    requires Mass(J, Whole, J.Keys) != 0.0
    ensures r.GeneTotal() == 1.0 && r.TraitTotal() == 1.0
  {
    MarginalTotals(J, k, J.Keys);
    Normalized(MarginalOf(J, k, J.Keys))
  }

  /** The posterior weight of g copies is the mass of that bucket over the
      total mass. */
  lemma PosteriorGeneShare(J: map<Hypothesis, real>, k: string, g: Copies)
    requires Mass(J, Whole, J.Keys) != 0.0
    ensures PosteriorOf(J, k).Gene(g) * Mass(J, Whole, J.Keys) == Mass(J, GeneOf(k, g), J.Keys)
  {
    var m := MarginalOf(J, k, J.Keys);
    MarginalTotals(J, k, J.Keys);
    MarginalGene(J, k, J.Keys, g);
    GeneShare(m, g, Mass(J, Whole, J.Keys), Mass(J, GeneOf(k, g), J.Keys));
  }

  /** The posterior weight of showing the trait or not is the mass of that
      bucket over the total mass. */
  lemma PosteriorTraitShare(J: map<Hypothesis, real>, k: string, t: bool)
    requires Mass(J, Whole, J.Keys) != 0.0
    ensures PosteriorOf(J, k).Trait(t) * Mass(J, Whole, J.Keys) == Mass(J, TraitOf(k, t), J.Keys)
  {
    var m := MarginalOf(J, k, J.Keys);
    MarginalTotals(J, k, J.Keys);
    MarginalTrait(J, k, J.Keys, t);
    TraitShare(m, t, Mass(J, Whole, J.Keys), Mass(J, TraitOf(k, t), J.Keys));
  }

  lemma MarginalGene(J: map<Hypothesis, real>, k: string, V: set<Hypothesis>, g: Copies)
    requires V <= J.Keys
    ensures MarginalOf(J, k, V).Gene(g) == Mass(J, GeneOf(k, g), V)
  {
  }

  lemma MarginalTrait(J: map<Hypothesis, real>, k: string, V: set<Hypothesis>, t: bool)
    requires V <= J.Keys
    ensures MarginalOf(J, k, V).Trait(t) == Mass(J, TraitOf(k, t), V)
  {
  }

  lemma GeneShare(m: Marginal, g: Copies, total: real, weight: real)
    requires m.GeneTotal() == total && total != 0.0 && m.TraitTotal() != 0.0 && m.Gene(g) == weight
    ensures Normalized(m).Gene(g) * total == weight
  {
  }

  lemma TraitShare(m: Marginal, t: bool, total: real, weight: real)
    requires m.TraitTotal() == total && total != 0.0 && m.GeneTotal() != 0.0 && m.Trait(t) == weight
    ensures Normalized(m).Trait(t) * total == weight
  {
  }

  /** No hypothesis of the space contradicts a recorded trait, so whatever the
      weights, the bucket opposite to an observation has mass 0. */
  lemma ObservedOppositeMass(people: People, J: map<Hypothesis, real>, k: string, t: bool)
    requires J.Keys == Space(people)
    requires k in people && people[k].knownTrait == Some(t)
    ensures Mass(J, TraitOf(k, !t), J.Keys) == 0.0
  {
    var w := Weights(J, TraitOf(k, !t));
    forall h | h in J
      ensures w[h] == 0.0
    {
      SpaceMember(people, h);
      assert k in Observed(people, t);
    }
    SumZero(w, J.Keys);
  }

  /** A person whose trait is recorded gets posterior 1 for that value and 0
      for the other. */
  lemma ObservedTraitPosterior(people: People, J: map<Hypothesis, real>, k: string, t: bool)
    requires J.Keys == Space(people)
    requires k in people && people[k].knownTrait == Some(t)
    requires Mass(J, Whole, J.Keys) != 0.0
    ensures PosteriorOf(J, k).Trait(t) == 1.0 && PosteriorOf(J, k).Trait(!t) == 0.0
  {
    ObservedOppositeMass(people, J, k, t);
    var m := MarginalOf(J, k, J.Keys);
    MarginalTotals(J, k, J.Keys);
    assert m.Trait(!t) == Mass(J, TraitOf(k, !t), J.Keys);
    NormalizedCertainTrait(m, t);
  }

  /** The joint probability of every hypothesis the loops visit. */
  ghost function JointTable(people: People): (J: map<Hypothesis, real>)
    ensures J.Keys == Space(people)
  {
    map h | h in Space(people) :: Joint(people, h.one, h.two, h.have)
  }

  /** The total mass: the sum of the joint probabilities of all hypotheses. */
  ghost function EvidenceTotal(people: People): real
  {
    Mass(JointTable(people), Whole, Space(people))
  }

  // ---------------------------------------------------------------------
  // A pedigree of one person

  /** The hypothesis that the person called name has g copies and shows the
      trait exactly when t. */
  function Solo(name: string, g: Copies, t: bool): Hypothesis
  {
    Hypothesis(if g == 1 then {name} else {}, if g == 2 then {name} else {}, if t then {name} else {})
  }

  /** The six hypotheses about one person. */
  function SoloHypotheses(name: string): set<Hypothesis>
  {
    {Solo(name, 0, false), Solo(name, 0, true), Solo(name, 1, false),
     Solo(name, 1, true), Solo(name, 2, false), Solo(name, 2, true)}
  }

  lemma SubsetOfSingleton(s: set<string>, x: string)
    ensures s <= {x} <==> s == {} || s == {x}
  {
    if s <= {x} && s != {} {
      var y :| y in s;
      assert y == x;
    }
  }

  /** With one person and no recorded trait, the loops visit exactly the six
      hypotheses about that person. */
  lemma SoloSpace(name: string, data: Person)
    requires data.knownTrait == None
    ensures Space(map[name := data]) == SoloHypotheses(name)
  {
    var people := map[name := data];
    assert Observed(people, true) == {} && Observed(people, false) == {};
    forall h
      ensures h in Space(people) <==> h in SoloHypotheses(name)
    {
      SpaceMember(people, h);
      SubsetOfSingleton(h.one, name);
      SubsetOfSingleton(h.two, name);
      SubsetOfSingleton(h.have, name);
      assert name in {name};
    }
  }

  /** GetGeneProb reads the count of a Solo hypothesis back. */
  lemma SoloCount(name: string, g: Copies, t: bool)
    ensures GetGeneProb(name, Solo(name, g, t).one, Solo(name, g, t).two).0 == g
    ensures (name in Solo(name, g, t).have) == t
  {
    assert name in {name};
  }

  /** The six weights of the hypotheses about one person, added up. */
  function SoloWeights(w: map<Hypothesis, real>, name: string): real
    requires SoloHypotheses(name) <= w.Keys
  {
    w[Solo(name, 0, false)] + w[Solo(name, 0, true)] + w[Solo(name, 1, false)] +
    w[Solo(name, 1, true)] + w[Solo(name, 2, false)] + w[Solo(name, 2, true)]
  }

  /** A sum over the six hypotheses is the sum of their six weights. */
  lemma SoloSum(w: map<Hypothesis, real>, name: string)
    requires SoloHypotheses(name) <= w.Keys
    ensures Sum(w, SoloHypotheses(name)) == SoloWeights(w, name)
  {
    assert name in {name};
    var s1 := {Solo(name, 0, false)};
    var s2 := s1 + {Solo(name, 0, true)};
    var s3 := s2 + {Solo(name, 1, false)};
    var s4 := s3 + {Solo(name, 1, true)};
    var s5 := s4 + {Solo(name, 2, false)};
    SumZero(w, {});
    SumAdd(w, {}, Solo(name, 0, false));
    assert {} + {Solo(name, 0, false)} == s1;
    SumAdd(w, s1, Solo(name, 0, true));
    SumAdd(w, s2, Solo(name, 1, false));
    SumAdd(w, s3, Solo(name, 1, true));
    SumAdd(w, s4, Solo(name, 2, false));
    SumAdd(w, s5, Solo(name, 2, true));
    assert s5 + {Solo(name, 2, true)} == SoloHypotheses(name);
  }

  /** Each of the six hypotheses is in the space. */
  lemma SoloInSpace(name: string, data: Person, g: Copies, t: bool)
    requires data.knownTrait == None
    ensures Solo(name, g, t) in Space(map[name := data])
  {
    var people := map[name := data];
    assert Observed(people, true) == {} && Observed(people, false) == {};
    SpaceMember(people, Solo(name, g, t));
  }

  /** The joint probability of each of the six hypotheses about a person
      without parents: the prior of the count times the trait table. */
  lemma SoloJoint(name: string, data: Person, g: Copies, t: bool)
    requires data.name == name && !HasParents(data) && data.knownTrait == None
    ensures Solo(name, g, t) in JointTable(map[name := data])
    ensures JointTable(map[name := data])[Solo(name, g, t)] == GenePrior(g) * TraitEmission(g, t)
  {
    var h := Solo(name, g, t);
    SoloInSpace(name, data, g, t);
    SoloCount(name, g, t);
    SinglePersonJoint(name, data, h.one, h.two, h.have);
  }

  /** A table of weights over exactly the six hypotheses about one person,
      each the prior of its count times the trait table. */
  predicate SoloTable(J: map<Hypothesis, real>, name: string)
  {
    J.Keys == SoloHypotheses(name) &&
    forall c: Copies, u: bool :: Solo(name, c, u) in J && J[Solo(name, c, u)] == GenePrior(c) * TraitEmission(c, u)
  }

  /** The program's table for one person without parents or evidence is such
      a table. */
  lemma SoloJointTable(name: string, data: Person)
    requires data.name == name && !HasParents(data) && data.knownTrait == None
    ensures SoloTable(JointTable(map[name := data]), name)
  {
    SoloSpace(name, data);
    forall c: Copies, u: bool
      ensures JointTable(map[name := data])[Solo(name, c, u)] == GenePrior(c) * TraitEmission(c, u)
    {
      SoloJoint(name, data, c, u);
    }
  }

  /** The chance of showing the trait or not for a person without parents:
      the trait table averaged over the gene prior. */
  function TraitPrior(t: bool): (r: real)
    ensures 0.0 < r < 1.0
  {
    GenePrior(0) * TraitEmission(0, t) + GenePrior(1) * TraitEmission(1, t) + GenePrior(2) * TraitEmission(2, t)
  }

  /** The six weights add up to 1. */
  lemma SoloWholeMass(J: map<Hypothesis, real>, name: string)
    requires SoloTable(J, name)
    ensures Mass(J, Whole, J.Keys) == 1.0
  {
    var w := Weights(J, Whole);
    SoloSum(w, name);
  }

  /** The mass of g copies is the prior of g, because the two trait values of
      the table add up to 1. */
  lemma SoloGeneMass(J: map<Hypothesis, real>, name: string, g: Copies)
    requires SoloTable(J, name)
    ensures Mass(J, GeneOf(name, g), J.Keys) == GenePrior(g)
  {
    var w := Weights(J, GeneOf(name, g));
    SoloSum(w, name);
    forall c: Copies, u: bool
      ensures w[Solo(name, c, u)] == if c == g then GenePrior(c) * TraitEmission(c, u) else 0.0
    {
      SoloCount(name, c, u);
    }
    TraitEmissionIsDistribution(g);
  }

  /** The mass of trait value t is TraitPrior(t). */
  lemma SoloTraitMass(J: map<Hypothesis, real>, name: string, t: bool)
    requires SoloTable(J, name)
    ensures Mass(J, TraitOf(name, t), J.Keys) == TraitPrior(t)
  {
    var w := Weights(J, TraitOf(name, t));
    SoloSum(w, name);
    forall c: Copies, u: bool
      ensures w[Solo(name, c, u)] == if u == t then GenePrior(c) * TraitEmission(c, u) else 0.0
    {
      SoloCount(name, c, u);
    }
    if t {
      assert w[Solo(name, 0, false)] == 0.0 && w[Solo(name, 1, false)] == 0.0 && w[Solo(name, 2, false)] == 0.0;
    } else {
      assert w[Solo(name, 0, true)] == 0.0 && w[Solo(name, 1, true)] == 0.0 && w[Solo(name, 2, true)] == 0.0;
    }
  }

  /** Rescaling an entry whose totals are already 1 leaves it as it is. */
  lemma NormalizedOfUnit(m: Marginal)
    requires m.GeneTotal() == 1.0 && m.TraitTotal() == 1.0
    ensures Normalized(m) == m
  {
    var r := Normalized(m);
    assert r.Gene(0) * 1.0 == m.Gene(0) && r.Gene(1) * 1.0 == m.Gene(1) && r.Gene(2) * 1.0 == m.Gene(2);
    assert r.Trait(true) * 1.0 == m.Trait(true) && r.Trait(false) * 1.0 == m.Trait(false);
  }

  /** When the total mass is 1, normalize changes nothing: the posterior is
      the accumulated entry, each weight the mass of its bucket. */
  lemma UnitMassPosterior(J: map<Hypothesis, real>, k: string)
    requires Mass(J, Whole, J.Keys) == 1.0
    ensures PosteriorOf(J, k) == MarginalOf(J, k, J.Keys)
  {
    MarginalTotals(J, k, J.Keys);
    NormalizedOfUnit(MarginalOf(J, k, J.Keys));
  }

  /** On a table of the six hypotheses about one person, the total mass is 1
      and the posterior is the gene prior together with TraitPrior. */
  lemma SoloPosterior(J: map<Hypothesis, real>, name: string)
    requires SoloTable(J, name)
    ensures Mass(J, Whole, J.Keys) == 1.0
    ensures PosteriorOf(J, name) == Marginal(GenePrior(0), GenePrior(1), GenePrior(2), TraitPrior(true), TraitPrior(false))
  {
    SoloWholeMass(J, name);
    UnitMassPosterior(J, name);
    SoloGeneMass(J, name, 0);
    SoloGeneMass(J, name, 1);
    SoloGeneMass(J, name, 2);
    SoloTraitMass(J, name, true);
    SoloTraitMass(J, name, false);
  }

  /** The entry of a person without parents or evidence, read bucket by
      bucket. */
  lemma PriorEntry(m: Marginal)
    requires m == Marginal(GenePrior(0), GenePrior(1), GenePrior(2), TraitPrior(true), TraitPrior(false))
    ensures forall g: Copies :: m.Gene(g) == GenePrior(g)
    ensures forall t: bool :: m.Trait(t) == TraitPrior(t)
  {
    forall g: Copies
      ensures m.Gene(g) == GenePrior(g)
    {
      if g == 0 {
        assert m.Gene(0) == GenePrior(0);
      } else if g == 1 {
        assert m.Gene(1) == GenePrior(1);
      } else {
        assert m.Gene(2) == GenePrior(2);
      }
    }
  }

  /** One person without parents and without a recorded trait: the total mass
      is 1, the posterior of each gene count is its prior, and the posterior of
      each trait value is the trait table averaged over the prior. */
  lemma SinglePersonPosterior(name: string, data: Person)
    requires data.name == name && !HasParents(data) && data.knownTrait == None
    ensures EvidenceTotal(map[name := data]) == 1.0
    ensures forall g: Copies :: PosteriorOf(JointTable(map[name := data]), name).Gene(g) == GenePrior(g)
    ensures forall t: bool :: PosteriorOf(JointTable(map[name := data]), name).Trait(t) == TraitPrior(t)
  {
    SoloJointTable(name, data);
    SoloPosterior(JointTable(map[name := data]), name);
    PriorEntry(PosteriorOf(JointTable(map[name := data]), name));
  }

  /** With the table's values: a person without parents or evidence shows the
      trait with posterior 0.0329. */
  lemma SinglePersonTraitValue()
    ensures TraitPrior(true) == 0.0329 && TraitPrior(false) == 0.9671
  {
  }

  // ---------------------------------------------------------------------
  // The driver

  /** Lines 78-82 of main, for fixed trait and one-copy sets: every split of
      the remaining names into two copies contributes its joint probability. */
  method AddRow(people: People, probabilities: Probabilities, oneGene: set<string>, haveTrait: set<string>,
                ghost J: map<Hypothesis, real>, ghost V: set<Hypothesis>)
    requires J == JointTable(people)
    requires oneGene <= people.Keys && haveTrait <= people.Keys && !FailsEvidence(people, haveTrait)
    requires V <= J.Keys && probabilities.table == Tally(people, J, V)
    requires forall h :: h in V ==> h.one != oneGene || h.have != haveTrait
    modifies probabilities
    ensures V + Row(oneGene, haveTrait, Powerset(people.Keys - oneGene)) <= J.Keys
    ensures probabilities.table == Tally(people, J, V + Row(oneGene, haveTrait, Powerset(people.Keys - oneGene)))
  {
    var names := people.Keys;
    var twoSets := Powerset(names - oneGene);
    ghost var W := V;
    while twoSets != {}
      invariant twoSets <= Powerset(names - oneGene)
      invariant W == V + Row(oneGene, haveTrait, Powerset(names - oneGene) - twoSets) && W <= J.Keys
      invariant probabilities.table == Tally(people, J, W)
      decreases twoSets
    {
      var twoGenes :| twoGenes in twoSets;
      ghost var doneTwos := Powerset(names - oneGene) - twoSets;
      var p := JointProbability(people, oneGene, twoGenes, haveTrait);
      ghost var h := Hypothesis(oneGene, twoGenes, haveTrait);
      SpaceMember(people, h);
      assert h in J && J[h] == p;
      RowMember(oneGene, haveTrait, doneTwos, h);
      assert h !in W;
      ghost var before := probabilities.table;
      probabilities.Update(oneGene, twoGenes, haveTrait, p);
      TallyStep(people, J, W, h, before, probabilities.table);
      RowGrow(oneGene, haveTrait, doneTwos, twoGenes);
      assert Powerset(names - oneGene) - (twoSets - {twoGenes}) == doneTwos + {twoGenes};
      W := W + {h};
      twoSets := twoSets - {twoGenes};
    }
    assert Powerset(names - oneGene) - twoSets == Powerset(names - oneGene);
  }

  /** Lines 76-82 of main, for a trait set that passes the evidence filter:
      every one-copy set, and for each every two-copy set, contributes. */
  method AddBlock(people: People, probabilities: Probabilities, haveTrait: set<string>,
                  ghost J: map<Hypothesis, real>, ghost V: set<Hypothesis>)
    requires J == JointTable(people)
    requires haveTrait <= people.Keys && !FailsEvidence(people, haveTrait)
    requires V <= J.Keys && probabilities.table == Tally(people, J, V)
    requires forall h :: h in V ==> h.have != haveTrait
    modifies probabilities
    ensures V + Block(people.Keys, haveTrait, Powerset(people.Keys)) <= J.Keys
    ensures probabilities.table == Tally(people, J, V + Block(people.Keys, haveTrait, Powerset(people.Keys)))
  {
    var names := people.Keys;
    var oneSets := Powerset(names);
    ghost var W := V;
    while oneSets != {}
      invariant oneSets <= Powerset(names)
      invariant W == V + Block(names, haveTrait, Powerset(names) - oneSets) && W <= J.Keys
      invariant probabilities.table == Tally(people, J, W)
      decreases oneSets
    {
      var oneGene :| oneGene in oneSets;
      ghost var doneOnes := Powerset(names) - oneSets;
      forall h | h in W
        ensures h.one != oneGene || h.have != haveTrait
      {
        BlockMember(names, haveTrait, doneOnes, h);
      }
      AddRow(people, probabilities, oneGene, haveTrait, J, W);
      BlockGrow(names, haveTrait, doneOnes, oneGene);
      assert Powerset(names) - (oneSets - {oneGene}) == doneOnes + {oneGene};
      W := W + Row(oneGene, haveTrait, Powerset(names - oneGene));
      oneSets := oneSets - {oneGene};
    }
    assert Powerset(names) - oneSets == Powerset(names);
  }

  /** Lines 48-85 of main: the accumulator starts blank, every hypothesis of the
      space is added by update, and normalize rescales it.  normalize raises
      ZeroDivisionError when a person's totals are 0, which happens exactly when
      there is someone and the total mass is 0; the driver then reports failure
      (ok false).  Otherwise every person gets their posterior. */
  method Infer(people: People) returns (ok: bool, table: map<string, Marginal>)
    ensures ok <==> people == map[] || EvidenceTotal(people) != 0.0
    ensures ok ==> table.Keys == people.Keys
    ensures ok ==> forall k :: k in people ==> table[k] == PosteriorOf(JointTable(people), k)
  {
    var probabilities := new Probabilities(people);
    ghost var J := JointTable(people);
    TallyEmpty(people, J);
    ghost var V: set<Hypothesis> := {};
    var names := people.Keys;
    var traitSets := Powerset(names);
    while traitSets != {}
      invariant traitSets <= Powerset(names)
      invariant V == Layer(people, Powerset(names) - traitSets) && V <= J.Keys
      invariant probabilities.table == Tally(people, J, V)
      decreases traitSets
    {
      var haveTrait :| haveTrait in traitSets;
      ghost var doneHaves := Powerset(names) - traitSets;
      if !FailsEvidence(people, haveTrait) {
        forall h | h in V
          ensures h.have != haveTrait
        {
          LayerMember(people, doneHaves, h);
        }
        AddBlock(people, probabilities, haveTrait, J, V);
        LayerGrow(people, doneHaves, haveTrait);
        V := V + Block(names, haveTrait, Powerset(names));
      } else {
        LayerSkip(people, doneHaves, haveTrait);
      }
      assert Powerset(names) - (traitSets - {haveTrait}) == doneHaves + {haveTrait};
      traitSets := traitSets - {haveTrait};
    }
    assert Powerset(names) - traitSets == Powerset(names);
    forall k | k in people {
      MarginalTotals(J, k, V);
    }
    if exists k :: k in probabilities.table && (probabilities.table[k].GeneTotal() == 0.0 || probabilities.table[k].TraitTotal() == 0.0) {
      return false, map[];
    }
    probabilities.Normalize();
    ok, table := true, probabilities.table;
  }
}
