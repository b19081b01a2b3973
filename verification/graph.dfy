/** The subject -> predicate -> object map produced by RDFa extraction, and the order
    in which `for...in` over subjects, `for...in` over predicates and the index loop
    over objects visit its objects. */
module Graph {
  import opened Wrappers
  import opened Dom

  /** The value of an RDFa object: a string, or the node list of an XML or HTML literal. */
  datatype ObjectValue = Text(text: string) | Nodes(nodes: seq<DomNode>)

  /** One extracted object. `objectType` is the processor's type string: the
      `rdf:object` marker, `rdf:PlainLiteral`, `rdf:XMLLiteral` or any datatype IRI. */
  datatype RdfaObject = RdfaObject(objectType: string, value: ObjectValue, language: Option<string>)

  type ObjectList = seq<RdfaObject>
  /** Predicates of one subject, in insertion order. */
  type PredicateMap = seq<(string, ObjectList)>
  /** Subjects of the graph, in insertion order. */
  type SubjectMap = seq<(string, PredicateMap)>

  /** One visit of the innermost loop: a subject, a predicate and one of its objects. */
  datatype Entry = Entry(subjectId: string, predicateId: string, rdfaObject: RdfaObject)

  /** The number of objects under all predicates of one subject. */
  function PredicateObjectCount(preds: PredicateMap): nat
  {
    if preds == [] then 0 else |preds[0].1| + PredicateObjectCount(preds[1..])
  }

  /** The number of objects in the whole graph. */
  function ObjectCount(g: SubjectMap): nat
  {
    if g == [] then 0 else PredicateObjectCount(g[0].1) + ObjectCount(g[1..])
  }

  /** The visits of the object loop for subject `s` and predicate `p`. */
  function ObjectEntries(s: string, p: string, objs: ObjectList): (es: seq<Entry>)
    ensures |es| == |objs|
    ensures forall k :: 0 <= k < |objs| ==> es[k] == Entry(s, p, objs[k])
  {
    if objs == [] then [] else [Entry(s, p, objs[0])] + ObjectEntries(s, p, objs[1..])
  }

  /** The visits of the predicate loop for subject `s`: one per object. */
  function PredicateEntries(s: string, preds: PredicateMap): (es: seq<Entry>)
    ensures |es| == PredicateObjectCount(preds)
  {
    if preds == [] then []
    else ObjectEntries(s, preds[0].0, preds[0].1) + PredicateEntries(s, preds[1..])
  }

  /** Every visit of the three nested loops, in the order they happen: one per object. */
  function Flatten(g: SubjectMap): (es: seq<Entry>)
    ensures |es| == ObjectCount(g)
  {
    if g == [] then [] else PredicateEntries(g[0].0, g[0].1) + Flatten(g[1..])
  }

  lemma {:induction false} PredicateObjectCountAppend(a: PredicateMap, b: PredicateMap)
    ensures PredicateObjectCount(a + b) == PredicateObjectCount(a) + PredicateObjectCount(b)
  {
    if a != [] {
      assert (a + b)[1..] == a[1..] + b;
      PredicateObjectCountAppend(a[1..], b);
    } else {
      assert a + b == b;
    }
  }

  lemma {:induction false} ObjectCountAppend(a: SubjectMap, b: SubjectMap)
    ensures ObjectCount(a + b) == ObjectCount(a) + ObjectCount(b)
  {
    if a != [] {
      assert (a + b)[1..] == a[1..] + b;
      ObjectCountAppend(a[1..], b);
    } else {
      assert a + b == b;
    }
  }

  /** The predicate loop over `a + b` visits `a`'s objects, then `b`'s. */
  lemma {:induction false} PredicateEntriesAppend(s: string, a: PredicateMap, b: PredicateMap)
    ensures PredicateEntries(s, a + b) == PredicateEntries(s, a) + PredicateEntries(s, b)
  {
    if a != [] {
      assert (a + b)[0] == a[0];
      assert (a + b)[1..] == a[1..] + b;
      PredicateEntriesAppend(s, a[1..], b);
    } else {
      assert a + b == b;
    }
  }

  /** The subject loop over `a + b` visits `a`'s objects, then `b`'s. */
  lemma {:induction false} FlattenAppend(a: SubjectMap, b: SubjectMap)
    ensures Flatten(a + b) == Flatten(a) + Flatten(b)
  {
    if a != [] {
      assert (a + b)[0] == a[0];
      assert (a + b)[1..] == a[1..] + b;
      FlattenAppend(a[1..], b);
    } else {
      assert a + b == b;
    }
  }

  /** `(i, j, k)` names the `k`-th object of the `j`-th predicate of the `i`-th subject. */
  predicate ValidPosition(g: SubjectMap, i: int, j: int, k: int) {
    0 <= i < |g| && 0 <= j < |g[i].1| && 0 <= k < |g[i].1[j].1|
  }

  /** The visit that handles object `(i, j, k)`. */
  function EntryAt(g: SubjectMap, i: int, j: int, k: int): Entry
    requires ValidPosition(g, i, j, k)
  {
    Entry(g[i].0, g[i].1[j].0, g[i].1[j].1[k])
  }

  /** How many objects the loops visit before object `(i, j, k)`: all objects of the
      earlier subjects, then of the earlier predicates of subject `i`, then the earlier
      objects of predicate `j`. */
  function Position(g: SubjectMap, i: int, j: int, k: int): nat
    requires ValidPosition(g, i, j, k)
  {
    ObjectCount(g[..i]) + PredicateObjectCount(g[i].1[..j]) + k
  }

  /** The subject loop visits subject `i`'s objects between those of the earlier and of
      the later subjects. */
  lemma {:induction false} FlattenSplit(g: SubjectMap, i: int)
    requires 0 <= i < |g|
    ensures Flatten(g) == Flatten(g[..i]) + PredicateEntries(g[i].0, g[i].1) + Flatten(g[i + 1..])
  {
    var front, middle, back := g[..i], [g[i]], g[i + 1..];
    assert Flatten(middle) == PredicateEntries(g[i].0, g[i].1) by {
      assert middle[1..] == [];
    }
    calc {
      Flatten(g);
      { assert g == front + middle + back; }
      Flatten(front + middle + back);
      { FlattenAppend(front + middle, back); }
      Flatten(front + middle) + Flatten(back);
      { FlattenAppend(front, middle); }
      Flatten(front) + Flatten(middle) + Flatten(back);
    }
  }

  /** The predicate loop visits predicate `j`'s objects between those of the earlier and
      of the later predicates. */
  lemma {:induction false} PredicateEntriesSplit(s: string, preds: PredicateMap, j: int)
    requires 0 <= j < |preds|
    ensures PredicateEntries(s, preds)
         == PredicateEntries(s, preds[..j]) + ObjectEntries(s, preds[j].0, preds[j].1) + PredicateEntries(s, preds[j + 1..])
  {
    var front, middle, back := preds[..j], [preds[j]], preds[j + 1..];
    assert PredicateEntries(s, middle) == ObjectEntries(s, preds[j].0, preds[j].1) by {
      assert middle[1..] == [];
    }
    calc {
      PredicateEntries(s, preds);
      { assert preds == front + middle + back; }
      PredicateEntries(s, front + middle + back);
      { PredicateEntriesAppend(s, front + middle, back); }
      PredicateEntries(s, front + middle) + PredicateEntries(s, back);
      { PredicateEntriesAppend(s, front, middle); }
      PredicateEntries(s, front) + PredicateEntries(s, middle) + PredicateEntries(s, back);
    }
  }

  /** Object `(i, j, k)` is visited exactly at its position. */
  lemma {:induction false} FlattenPosition(g: SubjectMap, i: int, j: int, k: int)
    requires ValidPosition(g, i, j, k)
    ensures Position(g, i, j, k) < |Flatten(g)|
    ensures Flatten(g)[Position(g, i, j, k)] == EntryAt(g, i, j, k)
  {
    var s, preds := g[i].0, g[i].1;
    var before := Flatten(g[..i]) + PredicateEntries(s, preds[..j]);
    var objectEntries := ObjectEntries(s, preds[j].0, preds[j].1);
    var after := PredicateEntries(s, preds[j + 1..]) + Flatten(g[i + 1..]);
    FlattenSplit(g, i);
    PredicateEntriesSplit(s, preds, j);
    Regroup(Flatten(g[..i]), PredicateEntries(s, preds[..j]), objectEntries, PredicateEntries(s, preds[j + 1..]), Flatten(g[i + 1..]));
    assert Flatten(g) == before + objectEntries + after;
    IndexInMiddle(before, objectEntries, after, k);
  }

  lemma Regroup<T>(a: seq<T>, b: seq<T>, c: seq<T>, d: seq<T>, e: seq<T>)
    ensures a + (b + c + d) + e == (a + b) + c + (d + e)
  {
  }

  lemma IndexInMiddle<T>(a: seq<T>, b: seq<T>, c: seq<T>, k: int)
    requires 0 <= k < |b|
    ensures |a| + k < |a + b + c| && (a + b + c)[|a| + k] == b[k]
  {
  }

  /** Subject `i`'s visits all come after the objects of earlier subjects and before
      those of later ones, and likewise for predicates and objects within a subject:
      the position is increasing in the lexicographic order of `(i, j, k)`. */
  lemma {:induction false} PositionOrder(g: SubjectMap, i: int, j: int, k: int, i': int, j': int, k': int)
    requires ValidPosition(g, i, j, k) && ValidPosition(g, i', j', k')
    requires i < i' || (i == i' && j < j') || (i == i' && j == j' && k < k')
    ensures Position(g, i, j, k) < Position(g, i', j', k')
  {
    var preds := g[i].1;
    assert preds[..j + 1] == preds[..j] + [preds[j]];
    PredicateObjectCountAppend(preds[..j], [preds[j]]);
    assert preds == preds[..j + 1] + preds[j + 1..];
    PredicateObjectCountAppend(preds[..j + 1], preds[j + 1..]);
    if i < i' {
      assert g[..i'] == g[..i] + [g[i]] + g[i + 1..i'];
      ObjectCountAppend(g[..i] + [g[i]], g[i + 1..i']);
      ObjectCountAppend(g[..i], [g[i]]);
      assert [g[i]][1..] == [];
    } else if j < j' {
      assert preds[..j'] == preds[..j + 1] + preds[j + 1..j'];
      PredicateObjectCountAppend(preds[..j + 1], preds[j + 1..j']);
    }
  }
}
