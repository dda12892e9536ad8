/**
 * Detections and `removeDuplicateObjects`
 * (interior-design-backend/services/imageAnalysisService.js).
 *
 * The source groups detections in a plain object keyed by the lower-cased
 * label and returns `Object.values` of it; here the object is a map plus
 * the order in which its keys were first inserted.
 */
module Detections {
  import opened Wrappers
  import opened Seqs
  import opened Text

  datatype Box = Box(xmin: int, ymin: int, xmax: int, ymax: int)

  /** One element of the detection service's array: `{label, score, box}` (`label` is a Dafny keyword, hence `name`). */
  datatype Detection = Detection(name: string, score: real, box: Option<Box>)

  /** The grouping key: the lower-cased label. */
  function Key(d: Detection): string {
    Lower(d.name)
  }

  function Keys(s: seq<Detection>): (ks: seq<string>)
    ensures |ks| == |s| && forall i :: 0 <= i < |s| ==> ks[i] == Key(s[i])
  {
    seq(|s|, i requires 0 <= i < |s| => Key(s[i]))
  }

  /**
   * The index of the detection kept for key `k`: the last one (scanning
   * left to right) that beat the current holder with a strictly greater
   * score; -1 when no detection has key `k`.
   */
  function KeptIndex(s: seq<Detection>, k: string): (i: int)
    ensures -1 <= i < |s|
    ensures 0 <= i ==> Key(s[i]) == k
    decreases |s|
  {
    if s == [] then -1
    else
      var b := KeptIndex(s[..|s| - 1], k);
      var x := s[|s| - 1];
      if Key(x) != k then b
      else if b < 0 || x.score > s[b].score then |s| - 1
      else b
  }

  /** The specification of `removeDuplicateObjects`: one kept detection per key, keys in first-seen order. */
  function Dedup(s: seq<Detection>): seq<Detection> {
    var ks := Unique(Keys(s));
    UniqueProperties(Keys(s));
    seq(|ks|, i requires 0 <= i < |ks| =>
      KeptIndexPresent(s, ks[i]);
      s[KeptIndex(s, ks[i])])
  }

  lemma {:induction false} KeptIndexPresent(s: seq<Detection>, k: string)
    requires k in Keys(s)
    ensures 0 <= KeptIndex(s, k)
    decreases |s|
  {
    var p := s[..|s| - 1];
    if Key(s[|s| - 1]) != k {
      var j :| 0 <= j < |s| && Keys(s)[j] == k;
      assert Keys(p)[j] == k;
      KeptIndexPresent(p, k);
    }
  }

  /**
   * What the kept index means: the detection there has the highest score
   * among those with key `k`, every earlier one with that key scored
   * strictly less (a tie keeps the first one seen), and it is absent
   * exactly when no detection has key `k`.
   */
  lemma {:induction false} KeptIndexIsFirstMaximum(s: seq<Detection>, k: string)
    ensures KeptIndex(s, k) < 0 <==> forall j :: 0 <= j < |s| ==> Key(s[j]) != k
    ensures 0 <= KeptIndex(s, k) ==>
      && (forall j :: 0 <= j < |s| && Key(s[j]) == k ==> s[j].score <= s[KeptIndex(s, k)].score)
      && (forall j :: 0 <= j < KeptIndex(s, k) && Key(s[j]) == k ==> s[j].score < s[KeptIndex(s, k)].score)
    decreases |s|
  {
    if s != [] {
      var p := s[..|s| - 1];
      KeptIndexIsFirstMaximum(p, k);
      assert forall j :: 0 <= j < |p| ==> p[j] == s[j];
    }
  }

  /** In a sequence where only index `i` has key `k`, that index is kept. */
  lemma {:induction false} KeptIndexOfSingle(s: seq<Detection>, k: string, i: nat)
    requires i < |s| && Key(s[i]) == k
    requires forall j :: 0 <= j < |s| && j != i ==> Key(s[j]) != k
    ensures KeptIndex(s, k) == i
    decreases |s|
  {
    var p := s[..|s| - 1];
    if i < |s| - 1 {
      KeptIndexOfSingle(p, k, i);
    } else {
      KeptIndexIsFirstMaximum(p, k);
    }
  }

  lemma KeysSnoc(s: seq<Detection>, x: Detection)
    ensures Keys(s + [x]) == Keys(s) + [Key(x)]
  {
  }

  lemma KeptIndexSnoc(s: seq<Detection>, x: Detection, k: string)
    ensures var b := KeptIndex(s, k);
      KeptIndex(s + [x], k) ==
        if Key(x) != k then b
        else if b < 0 || x.score > s[b].score then |s|
        else b
  {
    assert (s + [x])[..|s + [x]| - 1] == s;
  }

  /** The map and key order of `removeDuplicateObjects` after it has seen the detections `s`. */
  ghost predicate Tracks(s: seq<Detection>, order: seq<string>, objectMap: map<string, Detection>) {
    && order == Unique(Keys(s))
    && (forall k :: k in objectMap <==> k in order)
    && forall k :: k in objectMap ==> 0 <= KeptIndex(s, k) && objectMap[k] == s[KeptIndex(s, k)]
  }

  /** The key order after one more detection: a new key is appended. */
  lemma StepOrder(s: seq<Detection>, x: Detection, order: seq<string>, objectMap: map<string, Detection>)
    requires Tracks(s, order, objectMap)
    ensures (if Key(x) !in objectMap then order + [Key(x)] else order) == Unique(Keys(s + [x]))
  {
    KeysSnoc(s, x);
    UniqueSnoc(Keys(s), Key(x));
  }

  /** The map entry of a key after one more detection is the detection kept for it. */
  lemma StepValue(s: seq<Detection>, x: Detection, order: seq<string>, objectMap: map<string, Detection>, k': string)
    requires Tracks(s, order, objectMap)
    requires k' in (if Key(x) !in objectMap || x.score > objectMap[Key(x)].score then objectMap[Key(x) := x] else objectMap)
    ensures var m' := if Key(x) !in objectMap || x.score > objectMap[Key(x)].score then objectMap[Key(x) := x] else objectMap;
      0 <= KeptIndex(s + [x], k') && m'[k'] == (s + [x])[KeptIndex(s + [x], k')]
  {
    var k := Key(x);
    KeptIndexSnoc(s, x, k');
    if k' != k {
      assert k' in objectMap;
    } else if k !in objectMap {
      UniqueProperties(Keys(s));
      KeptIndexIsFirstMaximum(s, k);
    }
  }

  /** One iteration of the loop of `removeDuplicateObjects` keeps `Tracks`. */
  lemma TracksStep(s: seq<Detection>, x: Detection, order: seq<string>, objectMap: map<string, Detection>)
    requires Tracks(s, order, objectMap)
    ensures var k := Key(x);
      var isNew := k !in objectMap;
      Tracks(s + [x],
             if isNew then order + [k] else order,
             if isNew || x.score > objectMap[k].score then objectMap[k := x] else objectMap)
  {
    StepOrder(s, x, order, objectMap);
    var m' := if Key(x) !in objectMap || x.score > objectMap[Key(x)].score then objectMap[Key(x) := x] else objectMap;
    forall k' | k' in m' ensures 0 <= KeptIndex(s + [x], k') && m'[k'] == (s + [x])[KeptIndex(s + [x], k')] {
      StepValue(s, x, order, objectMap, k');
    }
  }

  /**
   * `removeDuplicateObjects`: one pass over the detections, replacing the
   * entry of a key when the key is new or the detection scores strictly
   * higher; then the map's values in key-insertion order.
   */
  method RemoveDuplicateObjects(detectedObjects: seq<Detection>) returns (unique: seq<Detection>)
    ensures unique == Dedup(detectedObjects)
  {
    var order: seq<string> := [];
    var objectMap: map<string, Detection> := map[];
    for n := 0 to |detectedObjects|
      invariant Tracks(detectedObjects[..n], order, objectMap)
    {
      var obj := detectedObjects[n];
      var key := Lower(obj.name);
      TracksStep(detectedObjects[..n], obj, order, objectMap);
      assert detectedObjects[..n + 1] == detectedObjects[..n] + [obj];
      if key !in objectMap || obj.score > objectMap[key].score {
        if key !in objectMap {
          order := order + [key];
        }
        objectMap := objectMap[key := obj];
      }
    }
    assert detectedObjects[..|detectedObjects|] == detectedObjects;
    unique := seq(|order|, i requires 0 <= i < |order| => objectMap[order[i]]);
  }

  // ----- properties of the specification --------------------------------------

  /** The output has at most one detection per lower-cased label. */
  lemma DedupKeysDistinct(s: seq<Detection>)
    ensures forall i, j :: 0 <= i < j < |Dedup(s)| ==> Key(Dedup(s)[i]) != Key(Dedup(s)[j])
  {
    UniqueProperties(Keys(s));
    forall i | 0 <= i < |Dedup(s)| ensures Key(Dedup(s)[i]) == Unique(Keys(s))[i] {
      DedupEntry(s, i);
    }
  }

  /** The entry at position `i` of the output is the detection kept for the `i`-th distinct key. */
  lemma DedupEntry(s: seq<Detection>, i: nat)
    requires i < |Dedup(s)|
    ensures var ks := Unique(Keys(s));
      && i < |ks| && 0 <= KeptIndex(s, ks[i])
      && Dedup(s)[i] == s[KeptIndex(s, ks[i])] && Key(Dedup(s)[i]) == ks[i]
  {
    UniqueProperties(Keys(s));
    KeptIndexPresent(s, Unique(Keys(s))[i]);
  }

  /** Every label of the input has an entry in the output. */
  lemma DedupCoversKeys(s: seq<Detection>)
    ensures forall j :: 0 <= j < |s| ==> exists i :: 0 <= i < |Dedup(s)| && Key(Dedup(s)[i]) == Key(s[j])
  {
    var ks := Unique(Keys(s));
    UniqueProperties(Keys(s));
    forall j | 0 <= j < |s| ensures exists i :: 0 <= i < |Dedup(s)| && Key(Dedup(s)[i]) == Key(s[j]) {
      assert Keys(s)[j] == Key(s[j]);
      assert Key(s[j]) in ks;
      var i :| 0 <= i < |ks| && ks[i] == Key(s[j]);
      DedupEntry(s, i);
    }
  }

  /**
   * Detection `n` scores highest among those with its label, and every
   * earlier one with that label scored strictly less.
   */
  ghost predicate FirstMaximumAt(s: seq<Detection>, n: int)
    requires 0 <= n < |s|
  {
    && (forall j :: 0 <= j < |s| && Key(s[j]) == Key(s[n]) ==> s[j].score <= s[n].score)
    && (forall j :: 0 <= j < n && Key(s[j]) == Key(s[n]) ==> s[j].score < s[n].score)
  }

  /**
   * Every output entry is an unchanged input detection and the entry of a
   * label is the detection with the highest score for it, the first one
   * seen on a tie.
   */
  lemma DedupKeepsFirstMaximum(s: seq<Detection>)
    ensures forall i :: 0 <= i < |Dedup(s)| ==>
      exists n :: 0 <= n < |s| && Dedup(s)[i] == s[n] && FirstMaximumAt(s, n)
  {
    forall i | 0 <= i < |Dedup(s)|
      ensures exists n :: 0 <= n < |s| && Dedup(s)[i] == s[n] && FirstMaximumAt(s, n)
    {
      DedupEntry(s, i);
      var k := Unique(Keys(s))[i];
      KeptIndexIsFirstMaximum(s, k);
      var n := KeptIndex(s, k);
      assert Key(s[n]) == k && 0 <= n < |s| && Dedup(s)[i] == s[n];
      assert FirstMaximumAt(s, n);
      assert exists n :: 0 <= n < |s| && Dedup(s)[i] == s[n] && FirstMaximumAt(s, n);
    }
    assert forall i :: 0 <= i < |Dedup(s)| ==>
      exists n :: 0 <= n < |s| && Dedup(s)[i] == s[n] && FirstMaximumAt(s, n);
  }

  /** Every input detection has an output entry with its label and at least its score. */
  lemma DedupDominates(s: seq<Detection>, j: nat)
    requires j < |s|
    ensures exists i :: 0 <= i < |Dedup(s)| && Key(Dedup(s)[i]) == Key(s[j]) && s[j].score <= Dedup(s)[i].score
  {
    var k := Key(s[j]);
    UniqueProperties(Keys(s));
    assert Keys(s)[j] == k;
    assert k in Unique(Keys(s));
    var i :| 0 <= i < |Unique(Keys(s))| && Unique(Keys(s))[i] == k;
    DedupEntry(s, i);
    KeptIndexIsFirstMaximum(s, k);
  }

  /** A sequence with distinct labels is its own dedup. */
  lemma DedupOfDistinctKeys(t: seq<Detection>)
    requires forall i, j :: 0 <= i < j < |t| ==> Key(t[i]) != Key(t[j])
    ensures Dedup(t) == t
  {
    assert Distinct(Keys(t));
    UniqueOfDistinct(Keys(t));
    forall i | 0 <= i < |t| ensures KeptIndex(t, Key(t[i])) == i {
      KeptIndexOfSingle(t, Key(t[i]), i);
    }
  }

  /** `removeDuplicateObjects` is idempotent. */
  lemma DedupIdempotent(s: seq<Detection>)
    ensures Dedup(Dedup(s)) == Dedup(s)
  {
    DedupKeysDistinct(s);
    DedupOfDistinctKeys(Dedup(s));
  }
}
