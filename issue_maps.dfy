/**
 * The per-file issue map (packageId -> issue). The source keeps it in a
 * plain object; keys that are not array indices enumerate in insertion
 * order, and the map is modelled as an association list in that order.
 * Assigning to an existing key keeps its position, a new key goes last, and
 * deleting removes it. (A key such as "123" would enumerate before the
 * others in JavaScript; that ordering is not modelled.)
 */
module IssueMaps {
  import opened Types

  datatype Entry = Entry(key: string, issue: Issue)

  type FileIssues = seq<Entry>

  predicate UniqueKeys(fi: FileIssues) {
    forall i, j :: 0 <= i < j < |fi| ==> fi[i].key != fi[j].key
  }

  /** Every entry is stored under its own package id, as the registry stores them. */
  predicate KeyedByPackageId(fi: FileIssues) {
    forall i :: 0 <= i < |fi| ==> fi[i].key == fi[i].issue.packageId
  }

  predicate WellFormed(fi: FileIssues) {
    UniqueKeys(fi) && KeyedByPackageId(fi)
  }

  /** Property read `fi[k]`: the issue of the first entry with that key. */
  function Get(fi: FileIssues, k: string): Option<Issue>
  {
    if fi == [] then None
    else if fi[0].key == k then Some(fi[0].issue)
    else Get(fi[1..], k)
  }

  /** A key is found exactly when some entry carries it, and what is found is that entry's issue. */
  lemma {:induction false} GetSpec(fi: FileIssues, k: string)
    ensures Get(fi, k).None? <==> forall i :: 0 <= i < |fi| ==> fi[i].key != k
    ensures Get(fi, k).Some? ==> exists i :: 0 <= i < |fi| && fi[i] == Entry(k, Get(fi, k).value)
  {
    if fi != [] && fi[0].key != k {
      GetSpec(fi[1..], k);
      assert forall i :: 1 <= i < |fi| ==> fi[i] == fi[1..][i - 1];
      if Get(fi, k).Some? {
        var j :| 0 <= j < |fi[1..]| && fi[1..][j] == Entry(k, Get(fi, k).value);
        assert fi[j + 1] == Entry(k, Get(fi, k).value);
      }
    }
  }

  /** `Object.values(fi)`. */
  function Values(fi: FileIssues): (vs: seq<Issue>)
    ensures |vs| == |fi| && forall i :: 0 <= i < |fi| ==> vs[i] == fi[i].issue
  {
    seq(|fi|, i requires 0 <= i < |fi| => fi[i].issue)
  }

  /** Assignment `fi[k] = v`: replaces the entry in place, or appends a new one. */
  function Put(fi: FileIssues, k: string, v: Issue): (r: FileIssues)
    ensures Get(r, k) == Some(v)
    ensures forall k' :: k' != k ==> Get(r, k') == Get(fi, k')
    ensures Get(fi, k).None? ==> r == fi + [Entry(k, v)]
  {
    if fi == [] then [Entry(k, v)]
    else if fi[0].key == k then [Entry(k, v)] + fi[1..]
    else
      var rest := Put(fi[1..], k, v);
      assert ([fi[0]] + rest)[1..] == rest;
      assert (fi + [Entry(k, v)])[1..] == fi[1..] + [Entry(k, v)];
      [fi[0]] + rest
  }

  /** Writing the issue a key already holds changes nothing. */
  lemma {:induction false} PutSame(fi: FileIssues, k: string, v: Issue)
    requires Get(fi, k) == Some(v)
    ensures Put(fi, k, v) == fi
  {
    if fi[0].key != k {
      PutSame(fi[1..], k, v);
    }
  }

  /** Overwriting an existing key keeps every key where it was. */
  lemma {:induction false} PutKeepsPositions(fi: FileIssues, k: string, v: Issue)
    requires Get(fi, k).Some?
    ensures |Put(fi, k, v)| == |fi| && forall i :: 0 <= i < |fi| ==> Put(fi, k, v)[i].key == fi[i].key
  {
    if fi[0].key != k {
      PutKeepsPositions(fi[1..], k, v);
      assert Put(fi, k, v) == [fi[0]] + Put(fi[1..], k, v);
    }
  }

  /** Writing adds no entry but the written one. */
  lemma {:induction false} PutEntries(fi: FileIssues, k: string, v: Issue)
    ensures forall e :: e in Put(fi, k, v) ==> e in fi || e == Entry(k, v)
  {
    if fi != [] && fi[0].key != k {
      PutEntries(fi[1..], k, v);
      assert Put(fi, k, v) == [fi[0]] + Put(fi[1..], k, v);
      assert forall e :: e in fi[1..] ==> e in fi;
    } else if fi != [] {
      assert forall e :: e in fi[1..] ==> e in fi;
    }
  }

  /** Writing keeps keys unique. */
  lemma {:induction false} PutUnique(fi: FileIssues, k: string, v: Issue)
    requires UniqueKeys(fi)
    ensures UniqueKeys(Put(fi, k, v))
  {
    if fi != [] && fi[0].key != k {
      PutUnique(fi[1..], k, v);
      var rest := Put(fi[1..], k, v);
      assert Put(fi, k, v) == [fi[0]] + rest;
      GetSpec(fi[1..], fi[0].key);
      assert Get(rest, fi[0].key).None?;
      GetSpec(rest, fi[0].key);
    }
  }

  /** Writing an issue under its own package id keeps every entry keyed by its package id. */
  lemma {:induction false} PutKeyed(fi: FileIssues, k: string, v: Issue)
    requires KeyedByPackageId(fi) && v.packageId == k
    ensures KeyedByPackageId(Put(fi, k, v))
  {
    if fi != [] && fi[0].key != k {
      PutKeyed(fi[1..], k, v);
      assert Put(fi, k, v) == [fi[0]] + Put(fi[1..], k, v);
    }
  }

  /** Overwriting keeps every key where it was; writing keeps keys unique and entries keyed by package id. */
  lemma PutShape(fi: FileIssues, k: string, v: Issue)
    ensures Get(fi, k).Some? ==> |Put(fi, k, v)| == |fi| && forall i :: 0 <= i < |fi| ==> Put(fi, k, v)[i].key == fi[i].key
    ensures forall e :: e in Put(fi, k, v) ==> e in fi || e == Entry(k, v)
    ensures UniqueKeys(fi) ==> UniqueKeys(Put(fi, k, v))
    ensures KeyedByPackageId(fi) && v.packageId == k ==> KeyedByPackageId(Put(fi, k, v))
  {
    if Get(fi, k).Some? {
      PutKeepsPositions(fi, k, v);
    }
    PutEntries(fi, k, v);
    if UniqueKeys(fi) {
      PutUnique(fi, k, v);
    }
    if KeyedByPackageId(fi) && v.packageId == k {
      PutKeyed(fi, k, v);
    }
  }

  /** `delete fi[k]`. */
  function Delete(fi: FileIssues, k: string): (r: FileIssues)
    ensures Get(r, k) == None
    ensures forall k' :: k' != k ==> Get(r, k') == Get(fi, k')
    ensures Get(fi, k).None? ==> r == fi
  {
    if fi == [] then []
    else
      var rest := Delete(fi[1..], k);
      if fi[0].key == k then rest
      else
        assert ([fi[0]] + rest)[1..] == rest;
        [fi[0]] + rest
  }

  /** Deleting adds no entry. */
  lemma {:induction false} DeleteEntries(fi: FileIssues, k: string)
    ensures forall e :: e in Delete(fi, k) ==> e in fi
  {
    if fi != [] {
      DeleteEntries(fi[1..], k);
      assert forall e :: e in fi[1..] ==> e in fi;
    }
  }

  /** Deleting a present key of a map with unique keys removes exactly one entry. */
  lemma {:induction false} DeleteLength(fi: FileIssues, k: string)
    requires Get(fi, k).Some? && UniqueKeys(fi)
    ensures |Delete(fi, k)| == |fi| - 1
  {
    assert UniqueKeys(fi[1..]);
    if fi[0].key == k {
      GetSpec(fi[1..], k);
    } else {
      DeleteLength(fi[1..], k);
    }
  }

  /** Deleting keeps keys unique. */
  lemma {:induction false} DeleteUnique(fi: FileIssues, k: string)
    requires UniqueKeys(fi)
    ensures UniqueKeys(Delete(fi, k))
  {
    if fi != [] {
      assert UniqueKeys(fi[1..]);
      DeleteUnique(fi[1..], k);
      if fi[0].key != k {
        GetSpec(fi[1..], fi[0].key);
        GetSpec(Delete(fi[1..], k), fi[0].key);
      }
    }
  }

  /** Deleting keeps every entry keyed by its package id. */
  lemma {:induction false} DeleteKeyed(fi: FileIssues, k: string)
    requires KeyedByPackageId(fi)
    ensures KeyedByPackageId(Delete(fi, k))
  {
    if fi != [] {
      DeleteKeyed(fi[1..], k);
    }
  }

  /** Deleting a present key of a map with unique keys cuts its one entry, at `i`, out, keeping the others in order. */
  lemma {:induction false} DeleteSplices(fi: FileIssues, k: string) returns (i: nat)
    requires Get(fi, k).Some? && UniqueKeys(fi)
    ensures i < |fi| && fi[i].key == k && Delete(fi, k) == fi[..i] + fi[i + 1..]
  {
    var rest := fi[1..];
    assert UniqueKeys(rest);
    if fi[0].key == k {
      GetSpec(rest, k);
      assert forall j :: 0 <= j < |rest| ==> rest[j] == fi[j + 1];
      assert Get(rest, k).None?;
      i := 0;
    } else {
      assert Delete(fi, k) == [fi[0]] + Delete(rest, k);
      var j := DeleteSplices(rest, k);
      assert fi[..j + 1] == [fi[0]] + rest[..j];
      assert fi[j + 2..] == rest[j + 1..];
      i := j + 1;
    }
  }

  /** Deleting removes exactly one entry of a map with unique keys, keeps the others in order, and keeps it well formed. */
  lemma DeleteShape(fi: FileIssues, k: string)
    ensures forall e :: e in Delete(fi, k) ==> e in fi
    ensures Get(fi, k).Some? && UniqueKeys(fi) ==> |Delete(fi, k)| == |fi| - 1
    ensures Get(fi, k).Some? && UniqueKeys(fi) ==>
      exists i :: 0 <= i < |fi| && fi[i].key == k && Delete(fi, k) == fi[..i] + fi[i + 1..]
    ensures UniqueKeys(fi) ==> UniqueKeys(Delete(fi, k))
    ensures KeyedByPackageId(fi) ==> KeyedByPackageId(Delete(fi, k))
  {
    DeleteEntries(fi, k);
    if Get(fi, k).Some? && UniqueKeys(fi) {
      DeleteLength(fi, k);
      var i := DeleteSplices(fi, k);
    }
    if UniqueKeys(fi) {
      DeleteUnique(fi, k);
    }
    if KeyedByPackageId(fi) {
      DeleteKeyed(fi, k);
    }
  }

  /** Writing a key that was absent and then deleting it gives back the original map. */
  lemma {:induction false} PutThenDelete(fi: FileIssues, k: string, v: Issue)
    requires Get(fi, k).None?
    ensures Delete(Put(fi, k, v), k) == fi
  {
    if fi != [] {
      assert fi[0].key != k;
      assert Get(fi[1..], k).None?;
      PutThenDelete(fi[1..], k, v);
    }
  }
}
