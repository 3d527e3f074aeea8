/** The text under which the evaluator files one label set of one host: sorted name=value pairs, each
    closed by a semicolon. Names and values are arbitrary strings. */
module Labels {
  import opened Text

  type LabelSet = map<string, string>

  function Pair(name: string, value: string): string {
    name + "=" + value
  }

  // What labelKey's loop writes for the names of a slice.
  function Written(names: seq<string>, labels: LabelSet): string
    requires forall n :: n in names ==> n in labels
  {
    if names == [] then "" else Pair(names[0], labels[names[0]]) + ";" + Written(names[1..], labels)
  }

  ghost predicate Sorted(names: seq<string>) {
    forall i, j :: 0 <= i < j < |names| ==> Before(names[i], names[j])
  }

  ghost predicate InOrder(names: seq<string>, labels: LabelSet) {
    Sorted(names) && forall n :: n in names <==> n in labels
  }

  /** key is what labelKey returns for the label set. */
  ghost predicate KeyOf(labels: LabelSet, key: string) {
    exists names: seq<string> :: InOrder(names, labels) && key == Written(names, labels)
  }

  method Place(names: seq<string>, n: string) returns (out: seq<string>)
    requires Sorted(names) && n !in names
    ensures Sorted(out) && forall x :: x in out <==> x in names || x == n
  {
    var i := 0;
    while i < |names| && Before(names[i], n)
      invariant 0 <= i <= |names|
      invariant forall j :: 0 <= j < i ==> Before(names[j], n)
    {
      i := i + 1;
    }
    out := names[..i] + [n] + names[i..];
    forall j | i <= j < |names| ensures Before(n, names[j]) {
      BeforeTotal(names[i], n);
      assert names[i] != n;
      if i < j { BeforeTransitive(n, names[i], names[j]); }
    }
    forall x ensures x in out <==> x in names || x == n {
      assert names == names[..i] + names[i..];
    }
  }

  method SortedNames(labels: LabelSet) returns (names: seq<string>)
    ensures InOrder(names, labels)
  {
    names := [];
    var rest := labels.Keys;
    while rest != {}
      invariant rest <= labels.Keys && Sorted(names)
      invariant forall n :: n in names <==> n in labels && n !in rest
    {
      var n :| n in rest;
      names := Place(names, n);
      rest := rest - {n};
    }
  }

  lemma NothingWritten(names: seq<string>, labels: LabelSet)
    requires names == []
    ensures Written(names, labels) == ""
  {}

  lemma Regroup(a: string, b: string, c: string)
    ensures a + (b + c) == a + b + c
  {}

  lemma WrittenNext(names: seq<string>, labels: LabelSet, i: nat)
    requires i < |names| && forall n :: n in names ==> n in labels
    ensures Written(names[i..], labels) == Pair(names[i], labels[names[i]]) + ";" + Written(names[i + 1..], labels)
  {
    assert names[i..][0] == names[i] && names[i..][1..] == names[i + 1..];
  }

  method LabelKey(labels: LabelSet) returns (key: string)
    ensures KeyOf(labels, key)
  {
    hide Before, Written, Sorted, Pair;
    var names := SortedNames(labels);
    assert names[0..] == names;
    key := "";
    var i := 0;
    while i < |names|
      invariant 0 <= i <= |names|
      invariant key + Written(names[i..], labels) == Written(names, labels)
    {
      WrittenNext(names, labels, i);
      var piece := Pair(names[i], labels[names[i]]) + ";";
      Regroup(key, piece, Written(names[i + 1..], labels));
      key := key + piece;
      i := i + 1;
    }
    NothingWritten(names[i..], labels);
  }

  // One pair of parseLabelKey's loop: a pair without '=' is dropped, a repeated name overwrites.
  function Noted(m: LabelSet, pair: string): LabelSet {
    var i := IndexOf(pair, '=');
    if i < |pair| then m[pair[..i] := pair[i + 1..]] else m
  }

  function Gathered(m: LabelSet, pairs: seq<string>): LabelSet
    decreases |pairs|
  {
    if pairs == [] then m else Gathered(Noted(m, pairs[0]), pairs[1..])
  }

  function Parsed(key: string): LabelSet {
    Gathered(map[], Split(TrimEnd(key, ';'), ';'))
  }

  method ParseLabelKey(key: string) returns (m: LabelSet)
    ensures m == Parsed(key)
  {
    m := map[];
    if key == "" {
      assert Split("", ';') == [""];
      return;
    }
    var pairs := Split(TrimEnd(key, ';'), ';');
    var i := 0;
    while i < |pairs|
      invariant 0 <= i <= |pairs|
      invariant Gathered(m, pairs[i..]) == Parsed(key)
    {
      var pair := pairs[i];
      assert pairs[i..][0] == pair && pairs[i..][1..] == pairs[i + 1..];
      if pair != "" {
        var j := IndexOf(pair, '=');
        if j < |pair| { m := m[pair[..j] := pair[j + 1..]]; }
      }
      i := i + 1;
    }
  }

  // ----- the round trip -----

  /** The label sets whose key can be read back. */
  predicate Plain(labels: LabelSet) {
    forall n :: n in labels ==> '=' !in n && ';' !in n && ';' !in labels[n]
  }

  ghost predicate PlainUpTo(names: seq<string>, labels: LabelSet) {
    forall n :: n in names ==> n in labels && '=' !in n && ';' !in n && ';' !in labels[n]
  }

  function Pairs(names: seq<string>, labels: LabelSet): (ps: seq<string>)
    requires forall n :: n in names ==> n in labels
    ensures |ps| == |names|
  {
    if names == [] then [] else [Pair(names[0], labels[names[0]])] + Pairs(names[1..], labels)
  }

  lemma TrimAfter(head: string, tail: string)
    requires tail != "" && tail[|tail| - 1] == ';'
    ensures TrimEnd(head + tail, ';') == head + TrimEnd(tail, ';')
    ensures (head + tail)[|head + tail| - 1] == ';'
  {}

  lemma TrimAll()
    ensures TrimEnd(";", ';') == ""
  {}

  lemma {:induction false} WrittenSplits(names: seq<string>, labels: LabelSet)
    requires names != [] && PlainUpTo(names, labels)
    ensures var s := Written(names, labels); s != "" && s[|s| - 1] == ';'
    ensures Split(TrimEnd(Written(names, labels), ';'), ';') == Pairs(names, labels)
  {
    hide Split, TrimEnd, IndexOf;
    var p := Pair(names[0], labels[names[0]]);
    assert ';' !in p;
    var tail := Written(names[1..], labels);
    if |names| == 1 {
      TrimAfter(p, ";");
      TrimAll();
      assert p + "" == p && p + ";" + "" == p + ";";
      SplitFirst(p, "", ';');
    } else {
      WrittenSplits(names[1..], labels);
      TrimAfter(p + ";", tail);
      SplitFirst(p, TrimEnd(tail, ';'), ';');
    }
  }

  lemma PairIsNoted(m: LabelSet, name: string, value: string)
    requires '=' !in name
    ensures Noted(m, Pair(name, value)) == m[name := value]
  {
    var p := Pair(name, value);
    assert p[..|name|] == name && p[|name| + 1..] == value;
    IndexOfFirst(p, '=', |name|);
  }

  lemma {:induction false} PairsGather(m: LabelSet, names: seq<string>, labels: LabelSet)
    requires PlainUpTo(names, labels)
    ensures var g := Gathered(m, Pairs(names, labels));
      && (forall n :: n in g <==> n in m || n in names)
      && (forall n :: n in names ==> g[n] == labels[n])
      && (forall n :: n in m && n !in names ==> g[n] == m[n])
    decreases |names|
  {
    if names != [] {
      var n := names[0];
      PairIsNoted(m, n, labels[n]);
      PairsGather(m[n := labels[n]], names[1..], labels);
      assert Pairs(names, labels)[1..] == Pairs(names[1..], labels);
      assert forall x :: x in names <==> x == n || x in names[1..];
    }
  }

  /** Whatever is parsed, its names hold no '=' or ';' and its values no ';'. */
  lemma {:induction false} GatheredIsPlain(m: LabelSet, pairs: seq<string>)
    requires Plain(m) && forall p :: p in pairs ==> ';' !in p
    ensures Plain(Gathered(m, pairs))
    decreases |pairs|
  {
    if pairs != [] {
      var p := pairs[0];
      var i := IndexOf(p, '=');
      if i < |p| {
        assert forall c :: c in p[..i] || c in p[i + 1..] ==> c in p;
      }
      assert forall q :: q in pairs[1..] ==> q in pairs;
      GatheredIsPlain(Noted(m, p), pairs[1..]);
    }
  }

  lemma NothingReadsBack()
    ensures Parsed("") == map[]
  {
    SplitFirst("", "", ';');
    assert Noted(map[], "") == map[];
  }

  lemma PlainReadsBack(names: seq<string>, labels: LabelSet)
    requires InOrder(names, labels) && Plain(labels)
    ensures Parsed(Written(names, labels)) == labels
  {
    hide Before, Split, TrimEnd, Pairs;
    if names == [] {
      NothingReadsBack();
      assert labels == map[];
    } else {
      WrittenSplits(names, labels);
      PairsGather(map[], names, labels);
    }
  }

  /** Reading back the key of a label set gives the label set exactly when no name holds '=' or ';' and
      no value holds ';'. */
  lemma RoundTripExactly(labels: LabelSet, key: string)
    requires KeyOf(labels, key)
    ensures Parsed(key) == labels <==> Plain(labels)
  {
    var names :| InOrder(names, labels) && key == Written(names, labels);
    GatheredIsPlain(map[], Split(TrimEnd(key, ';'), ';'));
    if Plain(labels) { PlainReadsBack(names, labels); }
  }

  /** Two plain label sets never share a key. */
  lemma DistinctSetsDistinctKeys(a: LabelSet, b: LabelSet, key: string)
    requires Plain(a) && Plain(b) && KeyOf(a, key) && KeyOf(b, key)
    ensures a == b
  {
    RoundTripExactly(a, key);
    RoundTripExactly(b, key);
  }

  lemma {:induction false} SortedIsUnique(a: seq<string>, b: seq<string>)
    requires Sorted(a) && Sorted(b) && (forall n :: n in a <==> n in b)
    ensures a == b
  {
    var first := if b == [] then "" else b[0];
    assert first in b ==> first in a;
    if a != [] {
      assert a[0] in b;
      HeadsAgree(a, b);
      forall n ensures n in a[1..] <==> n in b[1..] {
        BeforeIrreflexive(a[0]);
        assert n in a <==> n == a[0] || n in a[1..];
        assert n in b <==> n == b[0] || n in b[1..];
        assert forall j :: 0 <= j < |a[1..]| ==> a[1..][j] == a[j + 1];
        assert forall j :: 0 <= j < |b[1..]| ==> b[1..][j] == b[j + 1];
      }
      SortedIsUnique(a[1..], b[1..]);
      assert a == [a[0]] + a[1..] && b == [b[0]] + b[1..];
    }
  }

  lemma HeadsAgree(a: seq<string>, b: seq<string>)
    requires Sorted(a) && Sorted(b) && a != [] && b != [] && a[0] in b && b[0] in a
    ensures a[0] == b[0]
  {
    var i :| 0 <= i < |b| && b[i] == a[0];
    var j :| 0 <= j < |a| && a[j] == b[0];
    if i > 0 && j > 0 {
      BeforeTransitive(a[0], b[0], a[0]);
      BeforeIrreflexive(a[0]);
    }
  }

  /** One label set has one key, in whatever order the map is walked. */
  lemma KeyIsUnique(labels: LabelSet, key: string, key': string)
    requires KeyOf(labels, key) && KeyOf(labels, key')
    ensures key == key'
  {
    var names :| InOrder(names, labels) && key == Written(names, labels);
    var names' :| InOrder(names', labels) && key' == Written(names', labels);
    SortedIsUnique(names, names');
  }
}
