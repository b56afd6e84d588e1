/** The accumulator of the heredity program: for every person, unnormalised
    weights for 0, 1 and 2 copies of the gene and for showing the trait or not
    (the `probabilities` dictionary of heredity/heredity.py), the step that adds
    one joint probability to it (update) and the final rescaling (normalize).
 */
module HeredityMarginals {
  import opened Heredity

  /** One person's entry: probabilities[person]["gene"] and ["trait"]. */
  datatype Marginal = Marginal(gene0: real, gene1: real, gene2: real, traitTrue: real, traitFalse: real)
  {
    /** probabilities[person]["gene"][g]. */
    function Gene(g: Copies): real
    {
      if g == 0 then gene0 else if g == 1 then gene1 else gene2
    }

    /** probabilities[person]["trait"][t]. */
    function Trait(t: bool): real
    {
      if t then traitTrue else traitFalse
    }

    function GeneTotal(): real
    {
      gene0 + gene1 + gene2
    }

    function TraitTotal(): real
    {
      traitTrue + traitFalse
    }
  }

  /** The entry every person starts with: all five weights 0. */
  const Blank: Marginal := Marginal(0.0, 0.0, 0.0, 0.0, 0.0)

  /** What update does to one person's entry: p goes to the gene bucket of the
      person's count under the hypothesis (one copy taking precedence over two)
      and to the trait bucket of whether they are hypothesised to show it. */
  function AddJoint(m: Marginal, person: string, oneGene: set<string>, twoGenes: set<string>, haveTrait: set<string>, p: real): (r: Marginal)
    ensures forall g: Copies :: r.Gene(g) == m.Gene(g) + (if g == GetGeneProb(person, oneGene, twoGenes).0 then p else 0.0)
    ensures forall t: bool :: r.Trait(t) == m.Trait(t) + (if t == (person in haveTrait) then p else 0.0)
    ensures r.GeneTotal() == m.GeneTotal() + p && r.TraitTotal() == m.TraitTotal() + p
  {
    var withGene :=
      if person in oneGene then m.(gene1 := m.gene1 + p)
      else if person in twoGenes then m.(gene2 := m.gene2 + p)
      else m.(gene0 := m.gene0 + p);
    if person in haveTrait then withGene.(traitTrue := withGene.traitTrue + p)
    else withGene.(traitFalse := withGene.traitFalse + p)
  }

  /** Dividing three weights by their total gives weights that sum to 1. */
  lemma ShareOfThree(a: real, b: real, c: real)
    requires a + b + c != 0.0
    ensures var k := 1.0 / (a + b + c); a * k + b * k + c * k == 1.0
  {
    var t := a + b + c;
    var k := 1.0 / t;
    assert a * k + b * k + c * k == t * k;
  }

  /** Dividing two weights by their total gives weights that sum to 1. */
  lemma ShareOfTwo(a: real, b: real)
    requires a + b != 0.0
    ensures var k := 1.0 / (a + b); a * k + b * k == 1.0
  {
    var t := a + b;
    var k := 1.0 / t;
    assert a * k + b * k == t * k;
  }

  /** Scaling by 1 / t and multiplying back by t gives the weight back. */
  lemma ScaleBack(x: real, t: real)
    requires t != 0.0
    ensures x * (1.0 / t) * t == x
  {
    var k := 1.0 / t;
    assert x * k * t == x * (k * t);
  }

  /** What normalize does to one person's entry: multiplies the gene weights by
      1 over their total and the trait weights by 1 over theirs.  Python raises
      ZeroDivisionError on a zero total, which the precondition excludes. */
  function Normalized(m: Marginal): (r: Marginal)
    requires m.GeneTotal() != 0.0 && m.TraitTotal() != 0.0
    ensures r.GeneTotal() == 1.0 && r.TraitTotal() == 1.0
    ensures forall g: Copies :: r.Gene(g) * m.GeneTotal() == m.Gene(g)
    ensures forall t: bool :: r.Trait(t) * m.TraitTotal() == m.Trait(t)
  {
    var geneFactor := 1.0 / (m.gene0 + m.gene1 + m.gene2);
    var traitFactor := 1.0 / (m.traitTrue + m.traitFalse);
    ShareOfThree(m.gene0, m.gene1, m.gene2);
    ShareOfTwo(m.traitTrue, m.traitFalse);
    ScaleBack(m.gene0, m.GeneTotal());
    ScaleBack(m.gene1, m.GeneTotal());
    ScaleBack(m.gene2, m.GeneTotal());
    ScaleBack(m.traitTrue, m.TraitTotal());
    ScaleBack(m.traitFalse, m.TraitTotal());
    Marginal(m.gene0 * geneFactor, m.gene1 * geneFactor, m.gene2 * geneFactor,
             m.traitTrue * traitFactor, m.traitFalse * traitFactor)
  }

  /** A trait weight of 0 stays 0 and the other trait weight becomes 1. */
  lemma NormalizedCertainTrait(m: Marginal, t: bool)
    requires m.GeneTotal() != 0.0 && m.TraitTotal() != 0.0
    requires m.Trait(!t) == 0.0
    ensures Normalized(m).Trait(t) == 1.0 && Normalized(m).Trait(!t) == 0.0
  {
    var r := Normalized(m);
    ZeroFactor(r.Trait(!t), m.TraitTotal());
  }

  lemma ZeroFactor(x: real, y: real)
    requires y != 0.0 && x * y == 0.0
    ensures x == 0.0
  {
  }

  /** The `probabilities` dictionary, updated in place. */
  class Probabilities {
    var table: map<string, Marginal>

    /** Lines 48-61 of heredity.py: every person starts with all weights 0. */
    constructor(people: People)
      ensures table.Keys == people.Keys
      ensures forall k :: k in table ==> table[k] == Blank
    {
      table := map k | k in people :: Blank;
    }

    /** update: adds the joint probability p to every person's entry, visiting
        the entries in the dictionary's order. */
    method Update(oneGene: set<string>, twoGenes: set<string>, haveTrait: set<string>, p: real)
      modifies this
      ensures table.Keys == old(table).Keys
      ensures forall k :: k in table ==> table[k] == AddJoint(old(table)[k], k, oneGene, twoGenes, haveTrait, p)
    {
      var todo := table.Keys;
      ghost var before := table;
      while todo != {}
        invariant todo <= table.Keys == before.Keys
        invariant forall k :: k in table && k !in todo ==> table[k] == AddJoint(before[k], k, oneGene, twoGenes, haveTrait, p)
        invariant forall k :: k in todo ==> table[k] == before[k]
        decreases todo
      {
        var person :| person in todo;
        var data := table[person];
        table := table[person := AddJoint(data, person, oneGene, twoGenes, haveTrait, p)];
        todo := todo - {person};
      }
    }

    /** normalize: rescales every person's entry, in the dictionary's order.  The
        source divides by each total, so each must be nonzero. */
    method Normalize()
      requires forall k :: k in table ==> table[k].GeneTotal() != 0.0 && table[k].TraitTotal() != 0.0
      modifies this
      ensures table.Keys == old(table).Keys
      ensures forall k :: k in table ==> table[k] == Normalized(old(table)[k])
    {
      var todo := table.Keys;
      ghost var before := table;
      while todo != {}
        invariant todo <= table.Keys == before.Keys
        invariant forall k :: k in table && k !in todo ==> table[k] == Normalized(before[k])
        invariant forall k :: k in todo ==> table[k] == before[k]
        decreases todo
      {
        var person :| person in todo;
        var data := table[person];
        table := table[person := Normalized(data)];
        todo := todo - {person};
      }
    }
  }
}
