/** Policy algorithm lists and the helpers that edit them in place.

    A policy entry (`Algo`) is an algorithm name plus two optional string
    attributes, an expiration date and a size. A `java.util.List<Algo>` that
    the helpers change in place is the class `AlgoList`; each helper is a
    method whose loop is proved against a pure specification function, and the
    properties the helpers are relied on for are lemmas about those functions.
 */
module AlgoLists {

  datatype Option<T> = None | Some(value: T)

  /** One `Algo` element of a policy list: its name (`value`), its
      expiration `date` and its `size`, both optional attributes. */
  datatype Algo = Algo(value: string, date: Option<string>, size: Option<string>)

  /** Severity attached to a cryptographic constraint. */
  datatype Level = IGNORE | INFO | WARN | FAIL

  /** The fixed size the size helper writes. */
  const BIT_SIZE_4096: string := "4096"

  /** A mutable list of policy entries. */
  class AlgoList {
    var algos: seq<Algo>

    constructor (algos: seq<Algo>)
      ensures this.algos == algos
    {
      this.algos := algos;
    }
  }

  /** The cryptographic constraint of a policy: its level and its four lists.
      Only the expiration list is edited here; the level and the other three
      lists give the policy type its shape and are not read by any helper. */
  class CryptographicConstraint {
    var level: Level
    var acceptableDigestAlgo: AlgoList
    var acceptableEncryptionAlgo: AlgoList
    var miniPublicKeySize: AlgoList
    var algoExpirationDate: AlgoList

    constructor (level: Level, digest: AlgoList, encryption: AlgoList, keySize: AlgoList, expiration: AlgoList)
      ensures this.level == level
      ensures acceptableDigestAlgo == digest && acceptableEncryptionAlgo == encryption
      ensures miniPublicKeySize == keySize && algoExpirationDate == expiration
    {
      this.level := level;
      acceptableDigestAlgo := digest;
      acceptableEncryptionAlgo := encryption;
      miniPublicKeySize := keySize;
      algoExpirationDate := expiration;
    }
  }

  // ---------------------------------------------------------------------------
  // Specification functions
  // ---------------------------------------------------------------------------

  /** Some entry of `s` is named `name`. */
  predicate Named(s: seq<Algo>, name: string)
  {
    exists i :: 0 <= i < |s| && s[i].value == name
  }

  /** Entry `a` with its date set to `date` when it is named `name`. */
  function Redated(a: Algo, name: string, date: string): Algo
  {
    if a.value == name then a.(date := Some(date)) else a
  }

  /** `s` with the date of every entry named `name` set to `date`. */
  function DatesSet(s: seq<Algo>, name: string, date: string): (r: seq<Algo>)
  {
    if s == [] then [] else [Redated(s[0], name, date)] + DatesSet(s[1..], name, date)
  }

  /** The list `setAlgoExpirationDate` leaves behind: every entry named `name`
      dated `date`, or, when there is none, a new entry appended at the end. */
  function WithExpirationDate(s: seq<Algo>, name: string, date: string): (r: seq<Algo>)
  {
    if Named(s, name) then DatesSet(s, name, date)
    else s + [Algo(name, Some(date), None)]
  }

  /** `s` without the entries named `name`, in their original order. */
  function Removed(s: seq<Algo>, name: string): (r: seq<Algo>)
  {
    if s == [] then []
    else if s[0].value == name then Removed(s[1..], name)
    else [s[0]] + Removed(s[1..], name)
  }

  /** The index of the first entry named `name`, if any. */
  function FirstNamed(s: seq<Algo>, name: string): (r: Option<nat>)
    ensures r.Some? ==> r.value < |s| && s[r.value].value == name
    ensures r.Some? ==> forall j :: 0 <= j < r.value ==> s[j].value != name
    ensures r.None? <==> !Named(s, name)
  {
    if s == [] then None
    else if s[0].value == name then Some(0)
    else match FirstNamed(s[1..], name)
      case None => None
      case Some(k) => Some(k + 1)
  }

  /** `s` with the size of its first entry named `name` set to `size`. */
  function WithFirstSize(s: seq<Algo>, name: string, size: string): (r: seq<Algo>)
  {
    match FirstNamed(s, name)
    case None => s
    case Some(k) => s[k := s[k].(size := Some(size))]
  }

  // ---------------------------------------------------------------------------
  // setAlgoExpirationDate
  // ---------------------------------------------------------------------------

  /** Entry by entry, `DatesSet` redates exactly the entries named `name`. */
  lemma {:induction false} DatesSetAt(s: seq<Algo>, name: string, date: string)
    ensures |DatesSet(s, name, date)| == |s|
    ensures forall i :: 0 <= i < |s| ==> DatesSet(s, name, date)[i] == Redated(s[i], name, date)
  {
    if s != [] {
      DatesSetAt(s[1..], name, date);
      var r := DatesSet(s, name, date);
      forall i | 0 <= i < |s|
        ensures r[i] == Redated(s[i], name, date)
      {
        if i > 0 {
          assert r[i] == DatesSet(s[1..], name, date)[i - 1];
          assert s[i] == s[1..][i - 1];
        }
      }
    }
  }

  /** After the helper, every entry named `name` carries the new date, and
      some entry does (the list is never left without one). */
  lemma ExpirationDateApplied(s: seq<Algo>, name: string, date: string)
    ensures forall i ::
      (0 <= i < |WithExpirationDate(s, name, date)| && WithExpirationDate(s, name, date)[i].value == name) ==>
      WithExpirationDate(s, name, date)[i].date == Some(date)
    ensures Named(WithExpirationDate(s, name, date), name)
  {
    DatesSetAt(s, name, date);
    var r := WithExpirationDate(s, name, date);
    if Named(s, name) {
      var k :| 0 <= k < |s| && s[k].value == name;
      assert r[k].value == name;
    } else {
      assert r[|s|].value == name;
    }
  }

  /** The length is unchanged when an entry is named `name`; otherwise the
      list grows by exactly one entry `(name, date)` at its end, with no size. */
  lemma ExpirationDateLength(s: seq<Algo>, name: string, date: string)
    ensures Named(s, name) ==> |WithExpirationDate(s, name, date)| == |s|
    ensures !Named(s, name) ==>
      WithExpirationDate(s, name, date) == s + [Algo(name, Some(date), None)]
  {
    DatesSetAt(s, name, date);
  }

  /** Entries with another name keep their position and every attribute;
      entries named `name` change only in their date. */
  lemma ExpirationDateFrame(s: seq<Algo>, name: string, date: string)
    ensures |s| <= |WithExpirationDate(s, name, date)|
    ensures forall i :: 0 <= i < |s| && s[i].value != name ==>
      WithExpirationDate(s, name, date)[i] == s[i]
    ensures forall i :: 0 <= i < |s| && s[i].value == name ==>
      WithExpirationDate(s, name, date)[i] == s[i].(date := Some(date))
  {
    DatesSetAt(s, name, date);
  }

  /** Setting the same date twice is the same as setting it once. */
  lemma ExpirationDateIdempotent(s: seq<Algo>, name: string, date: string)
    ensures WithExpirationDate(WithExpirationDate(s, name, date), name, date) ==
      WithExpirationDate(s, name, date)
  {
    var r := WithExpirationDate(s, name, date);
    ExpirationDateApplied(s, name, date);
    DatesSetAt(s, name, date);
    DatesSetAt(r, name, date);
    assert DatesSet(r, name, date) == r;
  }

  /** Models `setAlgoExpirationDate`: the flag loop redates the matching
      entries of the constraint's expiration list; a new entry is appended
      when none matched. */
  method SetAlgoExpirationDate(constraint: CryptographicConstraint, algorithmName: string, expirationDate: string)
    modifies constraint.algoExpirationDate
    ensures constraint.algoExpirationDate.algos ==
      WithExpirationDate(old(constraint.algoExpirationDate.algos), algorithmName, expirationDate)
  {
    var algorithms := constraint.algoExpirationDate;
    ghost var before := algorithms.algos;
    var listContainsAlgorithms := false;
    var i := 0;
    while i < |algorithms.algos|
      invariant 0 <= i <= |algorithms.algos| == |before|
      invariant forall j :: 0 <= j < i ==> algorithms.algos[j] == Redated(before[j], algorithmName, expirationDate)
      invariant forall j :: i <= j < |before| ==> algorithms.algos[j] == before[j]
      invariant listContainsAlgorithms == Named(before[..i], algorithmName)
    {
      NamedStep(before, i, algorithmName);
      if algorithms.algos[i].value == algorithmName {
        algorithms.algos := algorithms.algos[i := algorithms.algos[i].(date := Some(expirationDate))];
        listContainsAlgorithms := true;
      }
      i := i + 1;
    }
    assert before[..i] == before;
    DatesSetAt(before, algorithmName, expirationDate);
    if !listContainsAlgorithms {
      assert algorithms.algos == before;
      algorithms.algos := algorithms.algos + [Algo(algorithmName, Some(expirationDate), None)];
    }
  }

  /** Extending the scanned prefix by one entry finds a name exactly when the
      prefix or the new entry holds it. */
  lemma NamedStep(s: seq<Algo>, i: nat, name: string)
    requires i < |s|
    ensures Named(s[..i + 1], name) <==> Named(s[..i], name) || s[i].value == name
  {
    if Named(s[..i], name) {
      var k :| 0 <= k < i && s[..i][k].value == name;
      assert s[..i + 1][k] == s[..i][k];
    }
    if s[i].value == name {
      assert s[..i + 1][i] == s[i];
    }
    if Named(s[..i + 1], name) {
      var k :| 0 <= k < i + 1 && s[..i + 1][k].value == name;
      if k < i {
        assert s[..i][k] == s[..i + 1][k];
      }
    }
  }

  // ---------------------------------------------------------------------------
  // removeAlgorithm
  // ---------------------------------------------------------------------------

  /** No entry named `name` survives, and every surviving entry comes from `s`. */
  lemma {:induction false} RemovedNone(s: seq<Algo>, name: string)
    ensures !Named(Removed(s, name), name)
    ensures forall a :: a in Removed(s, name) ==> a in s && a.value != name
  {
    if s != [] {
      RemovedNone(s[1..], name);
    }
  }

  /** Every entry of `s` with another name survives, as many times as it occurs. */
  lemma {:induction false} RemovedKeeps(s: seq<Algo>, name: string)
    ensures forall a: Algo :: a.value != name ==> multiset(Removed(s, name))[a] == multiset(s)[a]
  {
    if s != [] {
      RemovedKeeps(s[1..], name);
      assert s == [s[0]] + s[1..];
    }
  }

  /** Removal keeps relative order: removing from a concatenation removes from
      each part and concatenates the results in the same order. */
  lemma {:induction false} RemovedAppend(s: seq<Algo>, t: seq<Algo>, name: string)
    ensures Removed(s + t, name) == Removed(s, name) + Removed(t, name)
  {
    if s != [] {
      assert (s + t)[1..] == s[1..] + t;
      RemovedAppend(s[1..], t, name);
    } else {
      assert s + t == t;
    }
  }

  /** A list with no entry named `name` is left as it is. */
  lemma {:induction false} RemovedAbsent(s: seq<Algo>, name: string)
    requires !Named(s, name)
    ensures Removed(s, name) == s
  {
    if s != [] {
      assert !Named(s[1..], name) by {
        forall i | 0 <= i < |s[1..]| ensures s[1..][i].value != name {
          assert s[1..][i] == s[i + 1];
        }
      }
      RemovedAbsent(s[1..], name);
    }
  }

  /** Removing the same name twice is the same as removing it once. */
  lemma {:induction false} RemovedIdempotent(s: seq<Algo>, name: string)
    ensures Removed(Removed(s, name), name) == Removed(s, name)
  {
    RemovedNone(s, name);
    RemovedAbsent(Removed(s, name), name);
  }

  /** Models `removeAlgorithm`: the iterator walks the list and removes, in
      place, every entry named `algorithmName`. */
  method RemoveAlgorithm(algorithms: AlgoList, algorithmName: string)
    modifies algorithms
    ensures algorithms.algos == Removed(old(algorithms.algos), algorithmName)
  {
    ghost var before := algorithms.algos;
    ghost var seen := 0;
    var i := 0;
    while i < |algorithms.algos|
      invariant 0 <= seen <= |before|
      invariant 0 <= i <= |algorithms.algos|
      invariant algorithms.algos[..i] == Removed(before[..seen], algorithmName)
      invariant algorithms.algos[i..] == before[seen..]
      decreases |before| - seen
    {
      var algo := algorithms.algos[i];
      assert algo == before[seen];
      assert before[..seen + 1] == before[..seen] + [algo];
      RemovedAppend(before[..seen], [algo], algorithmName);
      if algo.value == algorithmName {
        algorithms.algos := algorithms.algos[..i] + algorithms.algos[i + 1..];
      } else {
        i := i + 1;
      }
      seen := seen + 1;
      assert algorithms.algos[i..] == before[seen..];
    }
    assert before[..seen] == before;
    assert algorithms.algos[..i] == algorithms.algos;
  }

  // ---------------------------------------------------------------------------
  // setAlgorithmSize
  // ---------------------------------------------------------------------------

  /** Only the first entry named `name` changes, and only in its size; with
      no such entry the list is unchanged. */
  lemma FirstSizeFrame(s: seq<Algo>, name: string, size: string)
    ensures |WithFirstSize(s, name, size)| == |s|
    ensures !Named(s, name) ==> WithFirstSize(s, name, size) == s
    ensures Named(s, name) ==> exists k ::
      && 0 <= k < |s| && s[k].value == name
      && (forall j :: 0 <= j < k ==> s[j].value != name)
      && WithFirstSize(s, name, size)[k] == s[k].(size := Some(size))
      && (forall j :: 0 <= j < |s| && j != k ==> WithFirstSize(s, name, size)[j] == s[j])
  {
  }

  /** Entries named `name` after the first one keep their old size. */
  lemma LaterNamesUnchanged(s: seq<Algo>, name: string, size: string, j: nat)
    requires j < |s| && s[j].value == name
    requires exists i :: 0 <= i < j && s[i].value == name
    ensures WithFirstSize(s, name, size)[j] == s[j]
  {
  }

  /** Models `setAlgorithmSize` as written: the first entry named `algorithm`
      gets the size `"4096"`; the `size` argument is not used. */
  method SetAlgorithmSize(algorithms: AlgoList, algorithm: string, size: string)
    modifies algorithms
    ensures algorithms.algos == WithFirstSize(old(algorithms.algos), algorithm, BIT_SIZE_4096)
  {
    SetFirstSize(algorithms, algorithm, BIT_SIZE_4096);
  }

  /** The size helper as evidently intended: the first entry named
      `algorithm` gets the caller's `size`. */
  method SetAlgorithmSizeIntended(algorithms: AlgoList, algorithm: string, size: string)
    modifies algorithms
    ensures algorithms.algos == WithFirstSize(old(algorithms.algos), algorithm, size)
  {
    SetFirstSize(algorithms, algorithm, size);
  }

  /** The search-and-update loop shared by both size helpers: stop at the
      first entry named `algorithm` and set its size. */
  method SetFirstSize(algorithms: AlgoList, algorithm: string, size: string)
    modifies algorithms
    ensures algorithms.algos == WithFirstSize(old(algorithms.algos), algorithm, size)
  {
    var i := 0;
    while i < |algorithms.algos|
      invariant 0 <= i <= |algorithms.algos|
      invariant algorithms.algos == old(algorithms.algos)
      invariant forall j :: 0 <= j < i ==> algorithms.algos[j].value != algorithm
    {
      if algorithms.algos[i].value == algorithm {
        algorithms.algos := algorithms.algos[i := algorithms.algos[i].(size := Some(size))];
        return;
      }
      i := i + 1;
    }
  }

  /** The two size helpers differ whenever the caller asks for a size other
      than `"4096"` on a list that holds the named algorithm. */
  lemma SizeArgumentIgnored()
    ensures WithFirstSize([Algo("RSA", None, Some("1024"))], "RSA", BIT_SIZE_4096)
      != WithFirstSize([Algo("RSA", None, Some("1024"))], "RSA", "2048")
  {
    var s := [Algo("RSA", None, Some("1024"))];
    assert WithFirstSize(s, "RSA", BIT_SIZE_4096)[0].size == Some("4096");
    assert WithFirstSize(s, "RSA", "2048")[0].size == Some("2048");
  }

  /** With the intended helper the first entry named `name` carries exactly
      the requested size afterwards, and keeps its name and date. */
  lemma IntendedSizeApplied(s: seq<Algo>, name: string, size: string)
    requires Named(s, name)
    ensures exists k ::
      && 0 <= k < |s| && s[k].value == name
      && (forall j :: 0 <= j < k ==> s[j].value != name)
      && WithFirstSize(s, name, size)[k] == Algo(name, s[k].date, Some(size))
  {
    FirstSizeFrame(s, name, size);
  }

}
