/** Construction-time checking of a list of column schemas (Go slices of
    references, so entries may be nil): every row schema generation checks
    the columns in order and reports the first position whose checks fail.
    The checks of one position and the name of a schema are parameters. */
module ColumnChecks {
  import opened Errors

  /** The first failing check at positions `i` to `n - 1`. */
  function FirstFrom(check: nat -> Option<Error>, n: nat, i: nat): Option<Error>
    decreases n - i
  {
    if i >= n then None
    else if check(i).Some? then check(i)
    else FirstFrom(check, n, i + 1)
  }

  /** No failure is reported exactly when every position passes. */
  lemma {:induction false} FirstFromNone(check: nat -> Option<Error>, n: nat, i: nat)
    ensures FirstFrom(check, n, i).None? <==> forall j | i <= j < n :: check(j).None?
    decreases n - i
  {
    if i < n && check(i).None? {
      FirstFromNone(check, n, i + 1);
    }
  }

  /** A reported failure is that of a failing position all of whose
      predecessors pass. */
  lemma {:induction false} FirstFromSome(check: nat -> Option<Error>, n: nat, i: nat)
    requires FirstFrom(check, n, i).Some?
    ensures exists j | i <= j < n :: FirstFrom(check, n, i) == check(j) &&
              forall k | i <= k < j :: check(k).None?
    decreases n - i
  {
    if check(i).None? {
      FirstFromSome(check, n, i + 1);
      var j :| i + 1 <= j < n && FirstFrom(check, n, i + 1) == check(j) &&
               forall k | i + 1 <= k < j :: check(k).None?;
      assert forall k | i <= k < j :: check(k).None?;
    }
  }

  /** Once the positions before `i` pass, the first failure from 0 is the
      first failure from `i`. */
  lemma {:induction false} FirstFromSkip(check: nat -> Option<Error>, n: nat, i: nat)
    requires i <= n && forall j: nat | j < i :: check(j).None?
    ensures FirstFrom(check, n, 0) == FirstFrom(check, n, i)
    decreases i
  {
    if i > 0 {
      FirstFromSkip(check, n, i - 1);
    }
  }

  /** A run of passing positions extends by one more passing position. */
  lemma PassingThrough(check: nat -> Option<Error>, i: nat)
    requires forall j: nat | j < i :: check(j).None?
    requires check(i).None?
    ensures forall j: nat | j < i + 1 :: check(j).None?
  {
  }

  /** A failure of a column's default, reported with the column's position;
      a panic is not an error value and cannot be wrapped. */
  function DefaultError(pos: nat, e: Error): Error
  {
    if e == Panic then Panic else InvalidDefault(pos, e)
  }

  /** The names of the non-nil schemas among `cs`. */
  function Names<T, K(==)>(name: T -> K, cs: seq<Option<T>>): set<K>
    decreases |cs|
  {
    if cs == [] then {}
    else
      var last := cs[|cs| - 1];
      Names(name, cs[..|cs| - 1]) + (if last.Some? then {name(last.value)} else {})
  }

  /** A name is among the names exactly when some non-nil schema has it. */
  lemma {:induction false} NamesHas<T, K>(name: T -> K, cs: seq<Option<T>>, n: K)
    ensures n in Names(name, cs) <==> exists j | 0 <= j < |cs| :: cs[j].Some? && name(cs[j].value) == n
    decreases |cs|
  {
    if cs != [] {
      var init := cs[..|cs| - 1];
      assert forall j | 0 <= j < |init| :: init[j] == cs[j];
      NamesHas(name, init, n);
    }
  }

  /** Growing the list by one entry adds its name. */
  lemma NamesAppend<T, K>(name: T -> K, cs: seq<Option<T>>, i: nat)
    requires i < |cs|
    ensures Names(name, cs[..i + 1]) ==
              Names(name, cs[..i]) + (if cs[i].Some? then {name(cs[i].value)} else {})
  {
    assert cs[..i + 1][..i] == cs[..i];
  }

  /** The non-nil schemas of a list, in order. */
  function Defined<T>(cs: seq<Option<T>>): seq<T>
    decreases |cs|
  {
    if cs == [] then []
    else
      var last := cs[|cs| - 1];
      Defined(cs[..|cs| - 1]) + (if last.Some? then [last.value] else [])
  }

  /** Of a list without nil entries, Defined keeps every entry. */
  lemma {:induction false} DefinedAll<T>(cs: seq<Option<T>>)
    requires forall i | 0 <= i < |cs| :: cs[i].Some?
    ensures |Defined(cs)| == |cs| && forall i | 0 <= i < |cs| :: Defined(cs)[i] == cs[i].value
    decreases |cs|
  {
    if cs != [] {
      var init := cs[..|cs| - 1];
      assert forall j | 0 <= j < |init| :: init[j] == cs[j];
      DefinedAll(init);
    }
  }

  /** Growing the list by one non-nil entry appends it. */
  lemma DefinedAppend<T>(cs: seq<Option<T>>, i: nat)
    requires i < |cs| && cs[i].Some?
    ensures Defined(cs[..i + 1]) == Defined(cs[..i]) + [cs[i].value]
  {
    assert cs[..i + 1][..i] == cs[..i];
  }
}
