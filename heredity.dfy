/** The probability model of the heredity program (heredity/heredity.py): the
    fixed probability table, the three lookup helpers and the joint probability
    of one complete hypothesis about who carries how many copies of the gene and
    who shows the trait.

    Probabilities are exact reals.  Two formulas are modelled as the program
    writes them, not as Mendelian inheritance would have them:
    the chance that a parent with one copy passes the gene on is half the
    mutation rate (not one half), and the chance that a child with two recorded
    parents has no copy is 1 - pm - pf (Python reads `1-pm * 1-pf` that way),
    not (1 - pm) * (1 - pf).
 */
module Heredity {
  import opened Wrappers
  import opened RealFolds

  /** A number of copies of the gene. */
  type Copies = g: int | 0 <= g <= 2

  /** One row of the pedigree.  mother, father and knownTrait (the CSV trait column) are None when blank. */
  datatype Person = Person(name: string, mother: Option<string>, father: Option<string>, knownTrait: Option<bool>)

  /** The pedigree, keyed by name. */
  type People = map<string, Person>

  // ---------------------------------------------------------------------
  // The probability table PROBS

  /** PROBS["gene"]: the chance of g copies for a person without recorded parents. */
  function GenePrior(g: Copies): (r: real)
    ensures 0.0 < r < 1.0
  {
    if g == 2 then 0.01 else if g == 1 then 0.03 else 0.96
  }

  /** PROBS["trait"][g][t]: the chance of showing the trait (t) or not (!t) with g copies. */
  function TraitEmission(g: Copies, t: bool): (r: real)
    ensures 0.0 < r < 1.0
  {
    if g == 2 then (if t then 0.65 else 0.35)
    else if g == 1 then (if t then 0.56 else 0.44)
    else (if t then 0.01 else 0.99)
  }

  /** PROBS["mutation"]. */
  const Mutation: real := 0.01

  /** The gene prior is a distribution over 0, 1 and 2 copies. */
  lemma GenePriorIsDistribution()
    ensures GenePrior(0) + GenePrior(1) + GenePrior(2) == 1.0
  {
  }

  /** For each gene count, the True and False entries of the trait table sum to 1. */
  lemma TraitEmissionIsDistribution(g: Copies)
    ensures TraitEmission(g, true) + TraitEmission(g, false) == 1.0
  {
  }

  // ---------------------------------------------------------------------
  // Lookup helpers

  /** get_gene_prob: the person's number of copies under the hypothesis, membership
      in oneGene taking precedence over twoGenes, and that count's prior. */
  function GetGeneProb(person: string, oneGene: set<string>, twoGenes: set<string>): (r: (Copies, real))
    ensures r.0 == 1 <==> person in oneGene
    ensures r.0 == 2 <==> person !in oneGene && person in twoGenes
    ensures r.0 == 0 <==> person !in oneGene && person !in twoGenes
    ensures r.1 == GenePrior(r.0)
  {
    if person in oneGene then (1, GenePrior(1))
    else if person in twoGenes then (2, GenePrior(2))
    else (0, GenePrior(0))
  }

  /** get_trait_prob: the trait table at g, for whether the person is hypothesised
      to show the trait. */
  function GetTraitProb(person: string, g: Copies, haveTrait: set<string>): (r: real)
    ensures r == TraitEmission(g, person in haveTrait)
    ensures 0.0 < r < 1.0
  {
    if person in haveTrait then TraitEmission(g, true) else TraitEmission(g, false)
  }

  /** get_inheritance: the chance that a parent with g copies passes the gene on,
      as written: mutation for 0, half the mutation rate for 1, 1 - mutation otherwise. */
  function GetInheritance(g: Copies): (r: real)
    ensures 0.0 < r < 1.0
  {
    if g == 0 then Mutation
    else if g == 1 then 0.5 * Mutation
    else 1.0 - Mutation
  }

  /** The three values get_inheritance takes; the one-copy value is not one half. */
  lemma InheritanceValues()
    ensures GetInheritance(0) == 0.01 && GetInheritance(1) == 0.005 && GetInheritance(2) == 0.99
    ensures GetInheritance(1) != 0.5
  {
  }

  // ---------------------------------------------------------------------
  // joint_probability

  /** The chance that a child has g copies when the mother passes the gene on with
      chance pm and the father with chance pf, as the program computes it. */
  function ChildGeneProb(g: Copies, pm: real, pf: real): (r: real)
    ensures g == 0 ==> r == 1.0 - pm - pf
    ensures g == 0 ==> (r == (1.0 - pm) * (1.0 - pf) <==> pm * pf == 0.0)
    ensures 0.0 <= pm <= 1.0 && 0.0 <= pf <= 1.0 && g != 0 ==> 0.0 <= r <= 1.0
  {
    if g == 0 then 1.0 - pm * 1.0 - pf
    else if g == 1 then OneCopyBound(pm, pf); (1.0 - pm) * pf + pm * (1.0 - pf)
    else TwoCopyBound(pm, pf); pm * pf
  }

  lemma TwoCopyBound(pm: real, pf: real)
    ensures 0.0 <= pm <= 1.0 && 0.0 <= pf <= 1.0 ==> 0.0 <= pm * pf <= 1.0
  {
    if 0.0 <= pm <= 1.0 && 0.0 <= pf <= 1.0 {
      UnitProduct(pm, pf);
    }
  }

  /** Exactly one parent passing the gene on is a chance in [0, 1]: with the
      chances that both or neither do, the four cases add up to 1. */
  lemma OneCopyBound(pm: real, pf: real)
    ensures 0.0 <= pm <= 1.0 && 0.0 <= pf <= 1.0 ==> 0.0 <= (1.0 - pm) * pf + pm * (1.0 - pf) <= 1.0
  {
    if 0.0 <= pm <= 1.0 && 0.0 <= pf <= 1.0 {
      UnitProduct(1.0 - pm, pf);
      UnitProduct(pm, 1.0 - pf);
      UnitProduct(1.0 - pm, 1.0 - pf);
      UnitProduct(pm, pf);
      assert (1.0 - pm) * pf + pm * (1.0 - pf) + (1.0 - pm) * (1.0 - pf) + pm * pf == 1.0;
    }
  }

  /** The three child terms add up to 1 - pm * pf, not to 1. */
  lemma ChildGeneTermsTotal(pm: real, pf: real)
    ensures ChildGeneProb(0, pm, pf) + ChildGeneProb(1, pm, pf) + ChildGeneProb(2, pm, pf) == 1.0 - pm * pf
  {
  }

  /** Whether the person's row names both a mother and a father. */
  predicate HasParents(data: Person)
  {
    data.mother.Some? && data.father.Some?
  }

  /** One entry of the list `prob` built by joint_probability: the person's gene
      term times their trait term. */
  function PersonFactor(data: Person, oneGene: set<string>, twoGenes: set<string>, haveTrait: set<string>): (r: real)
    ensures !HasParents(data) ==> 0.0 < r < 1.0
    ensures HasParents(data) && GetGeneProb(data.name, oneGene, twoGenes).0 != 0 ==> 0.0 <= r <= 1.0
    ensures HasParents(data) && GetGeneProb(data.name, oneGene, twoGenes).0 == 0 ==>
      (r < 0.0 <==> GetGeneProb(data.mother.value, oneGene, twoGenes).0 == 2 && GetGeneProb(data.father.value, oneGene, twoGenes).0 == 2)
  {
    if HasParents(data) then
      var g := GetGeneProb(data.name, oneGene, twoGenes).0;
      var pm := GetInheritance(GetGeneProb(data.mother.value, oneGene, twoGenes).0);
      var pf := GetInheritance(GetGeneProb(data.father.value, oneGene, twoGenes).0);
      ChildGeneProb(g, pm, pf) * GetTraitProb(data.name, g, haveTrait)
    else
      var (g, geneProb) := GetGeneProb(data.name, oneGene, twoGenes);
      geneProb * GetTraitProb(data.name, g, haveTrait)
  }

  /** A person without both parents is scored from the prior and the trait table,
      and the factor lies in [0, 1]. */
  lemma RootFactor(data: Person, oneGene: set<string>, twoGenes: set<string>, haveTrait: set<string>)
    requires !HasParents(data)
    ensures var g := GetGeneProb(data.name, oneGene, twoGenes).0;
      PersonFactor(data, oneGene, twoGenes, haveTrait) == GenePrior(g) * TraitEmission(g, data.name in haveTrait)
    ensures 0.0 <= PersonFactor(data, oneGene, twoGenes, haveTrait) <= 1.0
  {
    var g := GetGeneProb(data.name, oneGene, twoGenes).0;
    UnitProduct(GenePrior(g), TraitEmission(g, data.name in haveTrait));
  }

  /** A person with both parents is scored by the gene term, which depends on the
      parents' transmission chances, times the trait table. */
  lemma ChildFactor(data: Person, oneGene: set<string>, twoGenes: set<string>, haveTrait: set<string>)
    requires HasParents(data)
    ensures var g := GetGeneProb(data.name, oneGene, twoGenes).0;
      var pm := GetInheritance(GetGeneProb(data.mother.value, oneGene, twoGenes).0);
      var pf := GetInheritance(GetGeneProb(data.father.value, oneGene, twoGenes).0);
      var e := TraitEmission(g, data.name in haveTrait);
      var f := PersonFactor(data, oneGene, twoGenes, haveTrait);
      && (g == 2 ==> f == pm * pf * e)
      && (g == 1 ==> f == ((1.0 - pm) * pf + pm * (1.0 - pf)) * e)
      && (g == 0 ==> f == (1.0 - pm - pf) * e)
  {
  }

  lemma UnitProduct(a: real, b: real)
    requires 0.0 <= a <= 1.0 && 0.0 <= b <= 1.0
    ensures 0.0 <= a * b <= 1.0
  {
    var x, y := a, b;
    var d := 1.0 - x;
    assert 0.0 <= d * y;
    assert x * y == y - d * y;
    assert 0.0 <= x * y;
  }

  /** The per-person factors of a hypothesis, keyed by the pedigree's names. */
  function Factors(people: People, oneGene: set<string>, twoGenes: set<string>, haveTrait: set<string>): (f: map<string, real>)
    ensures f.Keys == people.Keys
  {
    map k | k in people :: PersonFactor(people[k], oneGene, twoGenes, haveTrait)
  }

  /** The joint probability of a hypothesis: the product of every person's factor. */
  ghost function Joint(people: People, oneGene: set<string>, twoGenes: set<string>, haveTrait: set<string>): real
  {
    Product(Factors(people, oneGene, twoGenes, haveTrait), people.Keys)
  }

  /** joint_probability: collects each person's factor into a list, in the
      dictionary's order, then multiplies the list out. */
  method JointProbability(people: People, oneGene: set<string>, twoGenes: set<string>, haveTrait: set<string>)
    returns (p: real)
    ensures p == Joint(people, oneGene, twoGenes, haveTrait)
  {
    ghost var f := Factors(people, oneGene, twoGenes, haveTrait);
    var prob: seq<real> := [];
    var todo := people.Keys;
    ghost var order: seq<string> := [];
    while todo != {}
      invariant todo <= people.Keys
      invariant Lists(prob, f, order)
      invariant Enumerates(order, people.Keys - todo)
      decreases todo
    {
      var person :| person in todo;
      prob := prob + [PersonFactor(people[person], oneGene, twoGenes, haveTrait)];
      order := order + [person];
      todo := todo - {person};
    }
    assert people.Keys - todo == people.Keys;
    SeqProductEnumerates(prob, f, order, people.Keys);
    p := MultiplyOut(prob);
  }

  /** The last loop of joint_probability: multiplies the collected factors
      together, starting from 1. */
  method MultiplyOut(prob: seq<real>) returns (finalJoint: real)
    ensures finalJoint == SeqProduct(prob)
  {
    finalJoint := 1.0;
    var i := 0;
    while i < |prob|
      invariant 0 <= i <= |prob|
      invariant finalJoint == SeqProduct(prob[..i])
    {
      SeqProductPrefix(prob, i);
      finalJoint := finalJoint * prob[i];
      i := i + 1;
    }
    assert prob[..|prob|] == prob;
  }

  /** When nobody has both parents recorded, the joint probability lies in [0, 1]. */
  lemma RootsJointInUnitInterval(people: People, oneGene: set<string>, twoGenes: set<string>, haveTrait: set<string>)
    requires forall k :: k in people ==> !HasParents(people[k])
    ensures 0.0 <= Joint(people, oneGene, twoGenes, haveTrait) <= 1.0
  {
    var f := Factors(people, oneGene, twoGenes, haveTrait);
    forall k | k in people.Keys
      ensures 0.0 <= f[k] <= 1.0
    {
      RootFactor(people[k], oneGene, twoGenes, haveTrait);
    }
    ProductInUnitInterval(f, people.Keys);
  }

  /** A pedigree of one person without parents: the joint probability is the
      prior of their gene count times the trait table. */
  lemma SinglePersonJoint(name: string, data: Person, oneGene: set<string>, twoGenes: set<string>, haveTrait: set<string>)
    requires data.name == name && !HasParents(data)
    ensures var g := GetGeneProb(name, oneGene, twoGenes).0;
      Joint(map[name := data], oneGene, twoGenes, haveTrait) == GenePrior(g) * TraitEmission(g, name in haveTrait)
  {
    var people := map[name := data];
    ProductPick(Factors(people, oneGene, twoGenes, haveTrait), people.Keys, name);
    assert people.Keys - {name} == {};
    RootFactor(data, oneGene, twoGenes, haveTrait);
  }

  /** Because of the zero-copy formula, a child with no copy whose parents both
      carry two copies gets a negative factor, and so does the whole hypothesis. */
  lemma NegativeJointExample()
    ensures var people := map[
        "mum" := Person("mum", None, None, None),
        "dad" := Person("dad", None, None, None),
        "kid" := Person("kid", Some("mum"), Some("dad"), None)];
      Joint(people, {}, {"mum", "dad"}, {}) < 0.0
  {
    var people := map[
        "mum" := Person("mum", None, None, None),
        "dad" := Person("dad", None, None, None),
        "kid" := Person("kid", Some("mum"), Some("dad"), None)];
    var f := Factors(people, {}, {"mum", "dad"}, {});
    assert people.Keys == {"mum", "dad", "kid"};
    ProductPick(f, {"mum", "dad", "kid"}, "kid");
    assert {"mum", "dad", "kid"} - {"kid"} == {"mum", "dad"};
    ProductPick(f, {"mum", "dad"}, "mum");
    assert {"mum", "dad"} - {"mum"} == {"dad"};
    ProductPick(f, {"dad"}, "dad");
    assert {"dad"} - {"dad"} == {};
    assert f["kid"] == (1.0 - 0.99 - 0.99) * 0.99;
    assert f["mum"] == 0.01 * 0.35 && f["dad"] == 0.01 * 0.35;
  }
}
