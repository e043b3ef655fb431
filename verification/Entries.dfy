/** Ordered lists of named texts with distinct names, and the maps they stand for. */
module Entries {

  datatype Entry = Entry(name: string, text: string)

  ghost predicate Distinct(es: seq<Entry>) {
    forall i, j | 0 <= i < j < |es| :: es[i].name != es[j].name
  }

  function MapOf(es: seq<Entry>): map<string, string> {
    if es == [] then map[]
    else MapOf(es[..|es| - 1])[es[|es| - 1].name := es[|es| - 1].text]
  }

  ghost predicate Holds(es: seq<Entry>, name: string) { exists i :: 0 <= i < |es| && es[i].name == name }

  lemma {:induction false} MapOfHolds(es: seq<Entry>)
    requires Distinct(es)
    ensures forall i | 0 <= i < |es| :: es[i].name in MapOf(es) && MapOf(es)[es[i].name] == es[i].text
    ensures forall n :: n in MapOf(es) ==> Holds(es, n)
  {
    if es != [] {
      var front, last := es[..|es| - 1], es[|es| - 1];
      MapOfHolds(front);
      assert forall i | 0 <= i < |front| :: es[i] == front[i];
      forall n | n in MapOf(es)
        ensures Holds(es, n)
      {
        if n == last.name {
          assert es[|es| - 1].name == n;
        } else {
          assert Holds(front, n);
          var i :| 0 <= i < |front| && front[i].name == n;
          assert es[i].name == n;
        }
      }
    }
  }

  lemma {:induction false} MapOfReplaced(es: seq<Entry>, at: nat, text: string)
    requires Distinct(es) && at < |es|
    ensures Distinct(es[at := Entry(es[at].name, text)])
    ensures MapOf(es[at := Entry(es[at].name, text)]) == MapOf(es)[es[at].name := text]
  {
    var after := es[at := Entry(es[at].name, text)];
    var last := |es| - 1;
    var front := es[..last];
    if at == last {
      assert after[..last] == front;
    } else {
      assert after[..last] == front[at := Entry(front[at].name, text)];
      MapOfReplaced(front, at, text);
      assert es[last].name != es[at].name;
    }
  }

  lemma MapOfAppended(es: seq<Entry>, e: Entry)
    requires Distinct(es) && !Holds(es, e.name)
    ensures Distinct(es + [e]) && MapOf(es + [e]) == MapOf(es)[e.name := e.text]
  {
    var after := es + [e];
    assert after[..|after| - 1] == es;
  }

  lemma RemoveAbsent(m: map<string, string>, name: string)
    requires name !in m
    ensures m - {name} == m
  {
  }

  lemma RemoveCommutes(m: map<string, string>, kept: Entry, gone: string)
    requires kept.name != gone
    ensures (m - {gone})[kept.name := kept.text] == m[kept.name := kept.text] - {gone}
  {
  }

  lemma MapOfSnoc(front: seq<Entry>, e: Entry)
    ensures MapOf(front + [e]) == MapOf(front)[e.name := e.text]
  {
    assert (front + [e])[..|front|] == front;
  }

  lemma RemovedStaysDistinct(es: seq<Entry>, at: nat)
    requires Distinct(es) && at < |es|
    ensures Distinct(es[..at] + es[at + 1..])
  {
    var after := es[..at] + es[at + 1..];
    assert forall i | 0 <= i < |after| :: after[i] == es[if i < at then i else i + 1];
  }

  lemma RemovedSnoc(es: seq<Entry>, at: nat)
    requires at + 1 < |es|
    ensures var front := es[..|es| - 1];
      es[..at] + es[at + 1..] == (front[..at] + front[at + 1..]) + [es[|es| - 1]]
  {
  }

  lemma {:induction false} MapOfRemoved(es: seq<Entry>, at: nat)
    requires Distinct(es) && at < |es|
    ensures Distinct(es[..at] + es[at + 1..])
    ensures MapOf(es[..at] + es[at + 1..]) == MapOf(es) - {es[at].name}
  {
    var last := |es| - 1;
    var front := es[..last];
    RemovedStaysDistinct(es, at);
    assert es == front + [es[last]];
    assert Distinct(front) && (at < last ==> es[last].name != es[at].name && front[at] == es[at]);
    if at == last {
      assert es[..at] + es[at + 1..] == front;
      MapOfHolds(front);
      assert es[at].name !in MapOf(front);
    } else {
      hide MapOf, Distinct;
      RemovedSnoc(es, at);
      MapOfSnoc(front, es[last]);
      MapOfRemoved(front, at);
      MapOfSnoc(front[..at] + front[at + 1..], es[last]);
      RemoveCommutes(MapOf(front), es[last], es[at].name);
    }
  }

  /** The names, in order. */
  function Order(es: seq<Entry>): (r: seq<string>)
    ensures |r| == |es|
    ensures forall i | 0 <= i < |es| :: r[i] == es[i].name
  {
    seq(|es|, i requires 0 <= i < |es| => es[i].name)
  }

  lemma OrderReplaced(es: seq<Entry>, at: nat, text: string)
    requires at < |es|
    ensures Order(es[at := Entry(es[at].name, text)]) == Order(es)
  {
  }

  lemma OrderAppended(es: seq<Entry>, e: Entry)
    ensures Order(es + [e]) == Order(es) + [e.name]
  {
  }

  lemma OrderRemoved(es: seq<Entry>, at: nat)
    requires at < |es|
    ensures Order(es[..at] + es[at + 1..]) == Order(es)[..at] + Order(es)[at + 1..]
  {
  }
}
