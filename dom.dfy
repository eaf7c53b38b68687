/** An abstract view of the page's document: elements are identifiers in
    document order, each with a set of class names. Lookups that the
    script performs with querySelector / querySelectorAll are defined here
    once and used by every component. */
module Dom {

  datatype Option<T> = None | Some(value: T)

  /** An element of the page. Identity is all the model needs of it. */
  type ElementId = nat

  /** The class list of an element; an element the map does not mention has none. */
  function ClassesOf(classes: map<ElementId, set<string>>, e: ElementId): set<string>
  {
    if e in classes then classes[e] else {}
  }

  /** ASCII white space as the DOM standard defines it: tab, line feed,
      form feed, carriage return and space. */
  predicate AsciiWhiteSpace(ch: char)
  {
    ch == '\t' || ch == '\n' || ch == '\U{C}' || ch == '\r' || ch == ' '
  }

  /** A token `classList.add` accepts: non-empty, with no ASCII white space.
      Any other token makes it throw, and no class is added. */
  predicate ClassToken(c: string)
  {
    |c| > 0 && forall i :: 0 <= i < |c| ==> !AsciiWhiteSpace(c[i])
  }

  /** `classList.add(c)` on element `e`. */
  function AddClass(classes: map<ElementId, set<string>>, e: ElementId, c: string): (r: map<ElementId, set<string>>)
    ensures ClassesOf(r, e) == ClassesOf(classes, e) + {c}
    ensures forall x :: x != e ==> ClassesOf(r, x) == ClassesOf(classes, x)
  {
    classes[e := ClassesOf(classes, e) + {c}]
  }

  predicate NoDuplicates<T(==)>(s: seq<T>)
  {
    forall i, j :: 0 <= i < j < |s| ==> s[i] != s[j]
  }

  /** Dropping the last element keeps a sequence free of repeats, and that
      element does not occur before it. */
  lemma NoDuplicatesInit<T>(s: seq<T>)
    requires NoDuplicates(s) && |s| > 0
    ensures NoDuplicates(s[..|s| - 1]) && s[|s| - 1] !in s[..|s| - 1]
  {
    var init := s[..|s| - 1];
    forall j | 0 <= j < |init| ensures init[j] != s[|s| - 1] {
      assert init[j] == s[j];
    }
  }

  /** Position of the first occurrence of `x` in `s`: what `querySelector`
      returns when several elements match (the first in document order). */
  function FirstIndex<T(==)>(s: seq<T>, x: T): (r: Option<nat>)
    ensures r.None? <==> x !in s
    ensures r.Some? ==> r.value < |s| && s[r.value] == x && x !in s[..r.value]
  {
    if |s| == 0 then None
    else if s[0] == x then Some(0)
    else
      var rest := FirstIndex(s[1..], x);
      assert s == [s[0]] + s[1..];
      match rest
      case None => None
      case Some(k) =>
        assert s[..k + 1] == [s[0]] + s[1..][..k];
        Some(k + 1)
  }

  /** The converse of FirstIndex's contract: a position holding `x` with no
      earlier occurrence is the one FirstIndex finds. */
  lemma {:induction false} FirstIndexAt<T>(s: seq<T>, x: T, k: nat)
    requires k < |s| && s[k] == x && x !in s[..k]
    ensures FirstIndex(s, x) == Some(k)
  {
    if k > 0 {
      assert s[0] == s[..k][0];
      assert s[1..][k - 1] == s[k];
      assert s[1..][..k - 1] == s[..k][1..];
      FirstIndexAt(s[1..], x, k - 1);
    }
  }

  /** `querySelectorAll('.c')`: the elements of `doc` that carry class `c`, in document order. */
  function Matching(doc: seq<ElementId>, classes: map<ElementId, set<string>>, c: string): (r: seq<ElementId>)
    ensures forall e :: e in r <==> e in doc && c in ClassesOf(classes, e)
    ensures |r| <= |doc|
    ensures NoDuplicates(doc) ==> NoDuplicates(r)
  {
    if |doc| == 0 then []
    else
      var rest := Matching(doc[1..], classes, c);
      assert forall e :: e in doc <==> e == doc[0] || e in doc[1..];
      if c in ClassesOf(classes, doc[0]) then
        assert NoDuplicates(doc) ==> doc[0] !in doc[1..] && NoDuplicates(doc[1..]);
        [doc[0]] + rest
      else
        assert NoDuplicates(doc) ==> NoDuplicates(doc[1..]);
        rest
  }

  /** `y` occurs in `s` somewhere after the first occurrence of `x`. */
  predicate OccursAfter<T(==)>(s: seq<T>, x: T, y: T)
  {
    FirstIndex(s, x).Some? && y in s[FirstIndex(s, x).value + 1..]
  }

  /** Document order: each later match occurs in `doc` after the first
      occurrence of every earlier one (in a document without repeats, the
      matches' positions increase). */
  lemma {:induction false} MatchingInOrder(doc: seq<ElementId>, classes: map<ElementId, set<string>>, c: string, r: seq<ElementId>)
    requires r == Matching(doc, classes, c)
    ensures forall i, j :: 0 <= i < j < |r| ==> OccursAfter(doc, r[i], r[j])
  {
    forall i, j | 0 <= i < j < |r|
      ensures OccursAfter(doc, r[i], r[j])
    {
      MatchingPairInOrder(doc, classes, c, i, j);
    }
  }

  lemma {:induction false} MatchingPairInOrder(doc: seq<ElementId>, classes: map<ElementId, set<string>>, c: string, i: nat, j: nat)
    requires i < j < |Matching(doc, classes, c)|
    ensures OccursAfter(doc, Matching(doc, classes, c)[i], Matching(doc, classes, c)[j])
  {
    var r := Matching(doc, classes, c);
    var rest := Matching(doc[1..], classes, c);
    if c in ClassesOf(classes, doc[0]) {
      assert r == [doc[0]] + rest;
      assert r[j] == rest[j - 1] && r[j] in rest;
      if i == 0 {
        OccursAfterHead(doc, r[j]);
      } else {
        assert r[i] == rest[i - 1];
        if r[i] != doc[0] {
          MatchingPairInOrder(doc[1..], classes, c, i - 1, j - 1);
        }
        OccursAfterTail(doc, r[i], r[j]);
      }
    } else {
      assert r == rest;
      assert r[i] in rest;
      MatchingPairInOrder(doc[1..], classes, c, i, j);
      OccursAfterTail(doc, r[i], r[j]);
    }
  }

  lemma OccursAfterHead<T>(s: seq<T>, y: T)
    requires |s| > 0 && y in s[1..]
    ensures OccursAfter(s, s[0], y)
  {
  }

  lemma OccursAfterTail<T>(s: seq<T>, x: T, y: T)
    requires |s| > 0 && y in s[1..]
    requires x != s[0] ==> OccursAfter(s[1..], x, y)
    ensures OccursAfter(s, x, y)
  {
    if x != s[0] {
      var m := FirstIndex(s[1..], x).value;
      assert s[m + 2..] == s[1..][m + 1..];
    }
  }

  /** The first match lies before any other element carrying `c`. */
  lemma {:induction false} MatchingFirst(doc: seq<ElementId>, classes: map<ElementId, set<string>>, c: string)
    requires |Matching(doc, classes, c)| > 0
    ensures exists k :: 0 <= k < |doc| && doc[k] == Matching(doc, classes, c)[0] && forall j :: 0 <= j < k ==> c !in ClassesOf(classes, doc[j])
  {
    if c !in ClassesOf(classes, doc[0]) {
      MatchingFirst(doc[1..], classes, c);
      var k :| 0 <= k < |doc[1..]| && doc[1..][k] == Matching(doc[1..], classes, c)[0] && forall j :: 0 <= j < k ==> c !in ClassesOf(classes, doc[1..][j]);
      forall j | 0 <= j < k + 1 ensures c !in ClassesOf(classes, doc[j]) {
        if j > 0 {
          assert doc[j] == doc[1..][j - 1];
        }
      }
      assert doc[k + 1] == Matching(doc, classes, c)[0];
    } else {
      assert doc[0] == Matching(doc, classes, c)[0];
    }
  }

  /** `querySelector('.c')`: the first element of `doc` that carries class `c`, if any. */
  function FirstMatching(doc: seq<ElementId>, classes: map<ElementId, set<string>>, c: string): (r: Option<ElementId>)
    ensures r.Some? <==> exists e :: e in doc && c in ClassesOf(classes, e)
    ensures r.Some? ==> r.value in doc && c in ClassesOf(classes, r.value)
    ensures r.Some? ==> exists k :: 0 <= k < |doc| && doc[k] == r.value && forall j :: 0 <= j < k ==> c !in ClassesOf(classes, doc[j])
  {
    var all := Matching(doc, classes, c);
    if |all| == 0 then None
    else
      assert all[0] in all;
      MatchingFirst(doc, classes, c);
      Some(all[0])
  }

  /** Adding class `added` to an element does not change which elements
      carry another class `c`. */
  lemma {:induction false} MatchingIgnoresOtherClass(doc: seq<ElementId>, classes: map<ElementId, set<string>>, e: ElementId, added: string, c: string)
    requires added != c
    ensures Matching(doc, AddClass(classes, e, added), c) == Matching(doc, classes, c)
  {
    if |doc| > 0 {
      MatchingIgnoresOtherClass(doc[1..], classes, e, added, c);
    }
  }

  // ---- Timers ----

  /** `setTimeout` runs a negative delay as 0. */
  function TimerDelay(delay: int): (r: nat)
    ensures delay >= 0 ==> r == delay
    ensures delay < 0 ==> r == 0
  {
    if delay < 0 then 0 else delay
  }

  // ---- IntersectionObserver batches ----

  /** One entry of an observer callback batch. */
  datatype Entry = Entry(target: ElementId, isIntersecting: bool)

  /** The targets of the intersecting entries, in batch order. */
  function IntersectingTargets(entries: seq<Entry>): (r: seq<ElementId>)
    ensures |r| <= |entries|
  {
    if |entries| == 0 then []
    else
      var init := IntersectingTargets(entries[..|entries| - 1]);
      var last := entries[|entries| - 1];
      if last.isIntersecting then init + [last.target] else init
  }

  /** An element is among the intersecting targets exactly when some entry
      of the batch reports it as intersecting. */
  lemma {:induction false} IntersectingTargetsMembers(entries: seq<Entry>, e: ElementId)
    ensures e in IntersectingTargets(entries) <==> exists k :: 0 <= k < |entries| && entries[k] == Entry(e, true)
  {
    if |entries| > 0 {
      var n := |entries| - 1;
      IntersectingTargetsMembers(entries[..n], e);
      assert forall k :: 0 <= k < n ==> entries[..n][k] == entries[k];
      if (exists k :: 0 <= k < |entries| && entries[k] == Entry(e, true)) {
        var k :| 0 <= k < |entries| && entries[k] == Entry(e, true);
        if k < n {
          assert entries[..n][k] == Entry(e, true);
        }
      }
    }
  }

  /** One more entry of a batch. */
  lemma IntersectingStep(entries: seq<Entry>, i: nat)
    requires i < |entries|
    ensures IntersectingTargets(entries[..i + 1]) ==
      if entries[i].isIntersecting then IntersectingTargets(entries[..i]) + [entries[i].target] else IntersectingTargets(entries[..i])
  {
    assert entries[..i + 1][..i] == entries[..i];
  }

  lemma AppendAssoc<T>(a: seq<T>, b: seq<T>, x: T)
    ensures a + b + [x] == a + (b + [x])
  {
  }

  /** The watched set after `unobserve` was called on each of `targets`. */
  function Unobserved(observed: set<ElementId>, targets: seq<ElementId>): set<ElementId>
  {
    if |targets| == 0 then observed
    else Unobserved(observed, targets[..|targets| - 1]) - {targets[|targets| - 1]}
  }

  /** Exactly the watched elements not among `targets` stay watched. */
  lemma {:induction false} UnobservedMembers(observed: set<ElementId>, targets: seq<ElementId>, x: ElementId)
    ensures x in Unobserved(observed, targets) <==> x in observed && x !in targets
  {
    if |targets| > 0 {
      var init := targets[..|targets| - 1];
      UnobservedMembers(observed, init, x);
      assert x in targets <==> x in init || x == targets[|targets| - 1];
    }
  }

  /** Unwatching one more element of a batch. */
  lemma UnobservedStep(observed: set<ElementId>, targets: seq<ElementId>, e: ElementId)
    ensures Unobserved(observed, targets + [e]) == Unobserved(observed, targets) - {e}
  {
    assert (targets + [e])[..|targets|] == targets;
  }
}
