/** The transition model of pagerank/pagerank.py and the link clean-up that
    ends crawl.  Probabilities are exact reals. */
module PageRank {
  import opened RealFolds

  /** A corpus: each page's set of links. */
  type Corpus = map<string, set<string>>

  /** The distribution transition_model builds for page: when the page has
      links, each linked page of the corpus gets d / |links| + (1 - d) / N and
      every other page (1 - d) / N; when it has none, every page gets 1 / N.
      N is the number of pages and the keys are exactly the corpus's pages. */
  ghost predicate IsTransition(corpus: Corpus, page: string, d: real, dist: map<string, real>)
    requires page in corpus
  {
    var n := |corpus| as real;
    var links := corpus[page];
    && dist.Keys == corpus.Keys
    && forall pg :: pg in dist ==>
         dist[pg] == if links == {} then 1.0 / n
                     else if pg in links then d / (|links| as real) + (1.0 - d) / n
                     else (1.0 - d) / n
  }

  /** transition_model: fills the distribution page by page, in the corpus's
      order.  Looking up corpus[page] needs page to be a page of the corpus,
      which also makes the divisor N positive. */
  method TransitionModel(corpus: Corpus, page: string, dampingFactor: real) returns (distribution: map<string, real>)
    requires page in corpus
    ensures IsTransition(corpus, page, dampingFactor, distribution)
  {
    assert page in corpus.Keys;
    var numOfPages := |corpus|;
    var links := corpus[page];
    distribution := map[];
    var randomPageProb := (1.0 - dampingFactor) / (numOfPages as real);
    var todo := corpus.Keys;
    if links != {} {
      while todo != {}
        invariant todo <= corpus.Keys
        invariant distribution.Keys == corpus.Keys - todo
        invariant forall pg :: pg in distribution ==>
          distribution[pg] == if pg in links then dampingFactor / (|links| as real) + randomPageProb else randomPageProb
        decreases todo
      {
        var pg :| pg in todo;
        if pg in links {
          distribution := distribution[pg := dampingFactor / (|links| as real)];
          distribution := distribution[pg := distribution[pg] + randomPageProb];
        } else {
          distribution := distribution[pg := randomPageProb];
        }
        todo := todo - {pg};
      }
    } else {
      while todo != {}
        invariant todo <= corpus.Keys
        invariant distribution.Keys == corpus.Keys - todo
        invariant forall pg :: pg in distribution ==> distribution[pg] == 1.0 / (numOfPages as real)
        decreases todo
      {
        var pg :| pg in todo;
        distribution := distribution[pg := 1.0 / (numOfPages as real)];
        todo := todo - {pg};
      }
    }
  }

  /** l shares of d / l + (1 - d) / n and n - l shares of (1 - d) / n add up
      to 1. */
  lemma SharesAddUp(l: real, n: real, o: real, d: real, a: real, b: real)
    requires 0.0 < l <= n && o == n - l
    requires a == d / l + (1.0 - d) / n && b == (1.0 - d) / n
    ensures l * a + o * b == 1.0
  {
    assert l * (d / l) == d;
    assert n * b == 1.0 - d;
    assert l * a + o * b == l * (d / l) + n * b;
  }

  /** When every link of page is a page of the corpus, the transition model is
      a probability distribution: its values add up to 1. */
  lemma TransitionSumsToOne(corpus: Corpus, page: string, d: real, dist: map<string, real>)
    requires page in corpus && corpus[page] <= corpus.Keys
    requires IsTransition(corpus, page, d, dist)
    ensures Sum(dist, dist.Keys) == 1.0
  {
    assert |dist| == |corpus|;
    assert page in dist;
    if corpus[page] == {} {
      UniformSum(dist);
    } else {
      LinkedSum(dist, corpus[page], d);
    }
  }

  /** N values of 1 / N add up to 1. */
  lemma UniformSum(m: map<string, real>)
    requires m != map[]
    requires forall k :: k in m ==> m[k] == 1.0 / (|m| as real)
    ensures Sum(m, m.Keys) == 1.0
  {
    var n := |m| as real;
    assert n > 0.0 by {
      var k :| k in m;
    }
    SumConst(m, m.Keys, 1.0 / n);
    assert n * (1.0 / n) == 1.0;
  }

  /** Values d / |links| + (1 - d) / N on the links and (1 - d) / N elsewhere
      add up to 1. */
  lemma LinkedSum(m: map<string, real>, links: set<string>, d: real)
    requires links != {} && links <= m.Keys
    requires forall k :: k in m ==>
      m[k] == if k in links then d / (|links| as real) + (1.0 - d) / (|m| as real) else (1.0 - d) / (|m| as real)
    ensures Sum(m, m.Keys) == 1.0
  {
    var others := m.Keys - links;
    assert m.Keys == links + others;
    var l, n := |links|, |m|;
    assert l <= n && |others| == n - l;
    var a, b := d / (l as real) + (1.0 - d) / (n as real), (1.0 - d) / (n as real);
    TwoLevelSum(m, links, others, a, b);
    var lr, nr, or := l as real, n as real, |others| as real;
    SharesAddUp(lr, nr, or, d, a, b);
  }

  /** A sum over two disjoint key sets, constant on each. */
  lemma TwoLevelSum(m: map<string, real>, in1: set<string>, in2: set<string>, a: real, b: real)
    requires in1 <= m.Keys && in2 <= m.Keys && in1 !! in2
    requires forall k :: k in in1 ==> m[k] == a
    requires forall k :: k in in2 ==> m[k] == b
    ensures Sum(m, in1 + in2) == (|in1| as real) * a + (|in2| as real) * b
  {
    SumUnion(m, in1, in2);
    SumConst(m, in1, a);
    SumConst(m, in2, b);
  }

  /** With a damping factor in [0, 1] every value lies in [0, 1]. */
  lemma TransitionInUnitInterval(corpus: Corpus, page: string, d: real, dist: map<string, real>)
    requires page in corpus && 0.0 <= d <= 1.0
    requires IsTransition(corpus, page, d, dist)
    ensures forall pg :: pg in dist ==> 0.0 <= dist[pg] <= 1.0
  {
    var n := |corpus| as real;
    assert n >= 1.0 by {
      assert page in dist.Keys;
    }
    var links := corpus[page];
    if links != {} {
      var l := |links| as real;
      UnitShare(d, l);
      UnitShare(1.0 - d, n);
      assert d / l + (1.0 - d) / n <= 1.0 by {
        assert d / l <= d;
        assert (1.0 - d) / n <= 1.0 - d;
      }
    } else {
      UnitShare(1.0, n);
    }
  }

  /** A share x / k of a weight x in [0, 1], for k >= 1, lies in [0, x]. */
  lemma UnitShare(x: real, k: real)
    requires 0.0 <= x <= 1.0 && k >= 1.0
    ensures 0.0 <= x / k <= x
  {
    assert x / k * k == x;
  }

  /** The end of crawl: line 39 drops each page's link to itself from the
      parsed links raw, then lines 42-46 keep only links to pages of the
      corpus. */
  method CleanLinks(raw: map<string, set<string>>) returns (pages: Corpus)
    ensures pages.Keys == raw.Keys
    ensures forall f, link :: f in pages ==> (link in pages[f] <==> link in raw[f] && link != f && link in raw)
    ensures forall f :: f in pages ==> f !in pages[f] && pages[f] <= pages.Keys
  {
    pages := map[];
    var files := raw.Keys;
    while files != {}
      invariant files <= raw.Keys
      invariant pages.Keys == raw.Keys - files
      invariant forall f :: f in pages ==> pages[f] == raw[f] - {f}
      decreases files
    {
      var filename :| filename in files;
      pages := pages[filename := raw[filename] - {filename}];
      files := files - {filename};
    }
    var todo := pages.Keys;
    ghost var parsed := pages;
    while todo != {}
      invariant todo <= pages.Keys == parsed.Keys
      invariant forall f :: f in todo ==> pages[f] == parsed[f]
      invariant forall f :: f in pages && f !in todo ==> pages[f] == parsed[f] * parsed.Keys
      decreases todo
    {
      var filename :| filename in todo;
      pages := pages[filename := set link | link in pages[filename] && link in pages];
      todo := todo - {filename};
    }
  }
}
