/** The teacher names attached to a "students_only" account: trimmed,
    without blanks, and without two names that differ only in letter case.
    The access card parses them from a comma-separated field and the
    authentication provider cleans the list it reads back; both keep the
    first spelling of each name, in input order.

    The cleaning is stated for any `clean` (the panel's is `trim`) and any
    `key` (the panel's is `toLowerCase`), so that its proofs need nothing
    about strings; `DistinctNames` is the panel's instance. */
module TeacherNames {
  import opened Text

  /** The keys already taken. */
  function Keys(names: seq<string>, key: string -> string): set<string> {
    set n | n in names :: key(n)
  }

  lemma KeysSnoc(names: seq<string>, next: string, key: string -> string)
    ensures Keys(names + [next], key) == Keys(names, key) + {key(next)}
  {
    assert next in names + [next];
    forall n | n in names ensures n in names + [next] { }
  }

  /** One step of the cleaning: the cleaned value `next` is appended unless
      it is blank or its key is taken. */
  function AddName(names: seq<string>, next: string, key: string -> string): seq<string> {
    if next == [] || key(next) in Keys(names, key) then names else names + [next]
  }

  /** The cleaned values, blanks dropped, each kept at the first occurrence
      of its key. */
  function KeepFirst(values: seq<string>, clean: string -> string, key: string -> string): (r: seq<string>)
    ensures forall n :: n in r ==> n != []
    ensures forall i, j :: 0 <= i < j < |r| ==> key(r[i]) != key(r[j])
    decreases |values|
  {
    if values == [] then []
    else
      var prev := KeepFirst(values[..|values| - 1], clean, key);
      assert forall i :: 0 <= i < |prev| ==> key(prev[i]) in Keys(prev, key);
      AddName(prev, clean(values[|values| - 1]), key)
  }

  /** One more value is one more step. */
  lemma KeepFirstSnoc(values: seq<string>, v: string, clean: string -> string, key: string -> string)
    ensures KeepFirst(values + [v], clean, key) == AddName(KeepFirst(values, clean, key), clean(v), key)
  {
    assert (values + [v])[..|values|] == values;
  }

  /** Every name kept is the cleaned form of some value. */
  lemma {:induction false} KeepFirstSound(values: seq<string>, clean: string -> string, key: string -> string)
    ensures forall n :: n in KeepFirst(values, clean, key) ==>
              exists k :: 0 <= k < |values| && clean(values[k]) == n
    decreases |values|
  {
    if values != [] {
      var m := |values| - 1;
      KeepFirstSound(values[..m], clean, key);
      forall n | n in KeepFirst(values, clean, key)
        ensures exists k :: 0 <= k < |values| && clean(values[k]) == n
      {
        if n in KeepFirst(values[..m], clean, key) {
          var k :| 0 <= k < m && clean(values[..m][k]) == n;
          assert values[..m][k] == values[k];
        } else {
          assert clean(values[m]) == n;
        }
      }
    }
  }

  /** No non-blank value is lost: its key is among the keys kept. */
  lemma {:induction false} KeepFirstComplete(values: seq<string>, k: nat, clean: string -> string, key: string -> string)
    requires k < |values| && clean(values[k]) != []
    ensures key(clean(values[k])) in Keys(KeepFirst(values, clean, key), key)
    decreases |values|
  {
    var m := |values| - 1;
    var prev := KeepFirst(values[..m], clean, key);
    if k < m {
      assert values[..m][k] == values[k];
      KeepFirstComplete(values[..m], k, clean, key);
      if key(clean(values[m])) !in Keys(prev, key) && clean(values[m]) != [] {
        KeysSnoc(prev, clean(values[m]), key);
      }
    } else if key(clean(values[m])) !in Keys(prev, key) {
      KeysSnoc(prev, clean(values[m]), key);
    }
  }

  /** A non-blank value whose key has not come before is kept as cleaned:
      the first spelling wins. */
  lemma {:induction false} KeepFirstKeepsFirst(values: seq<string>, k: nat, clean: string -> string, key: string -> string)
    requires k < |values| && clean(values[k]) != []
    requires forall j :: 0 <= j < k ==> key(clean(values[j])) != key(clean(values[k]))
    ensures clean(values[k]) in KeepFirst(values, clean, key)
    decreases |values|
  {
    var m := |values| - 1;
    var prev := KeepFirst(values[..m], clean, key);
    if k < m {
      assert values[..m][k] == values[k];
      KeepFirstKeepsFirst(values[..m], k, clean, key);
    } else {
      KeepFirstSound(values[..m], clean, key);
      forall n | n in prev ensures key(n) != key(clean(values[m])) {
        var j :| 0 <= j < m && clean(values[..m][j]) == n;
        assert values[..m][j] == values[j];
      }
    }
  }

  /** The names kept for a prefix of the values are a prefix of the names
      kept for all of them: names come out in the order of their first
      occurrence. */
  lemma {:induction false} KeepFirstPrefix(values: seq<string>, m: nat, clean: string -> string, key: string -> string)
    requires m <= |values|
    ensures KeepFirst(values[..m], clean, key) <= KeepFirst(values, clean, key)
    decreases |values|
  {
    if m < |values| {
      var n := |values| - 1;
      assert values[..n][..m] == values[..m];
      KeepFirstPrefix(values[..n], m, clean, key);
    } else {
      assert values[..m] == values;
    }
  }

  /** The result depends only on the cleaned values. */
  lemma {:induction false} KeepFirstOfCleaned(a: seq<string>, b: seq<string>, clean: string -> string, key: string -> string)
    requires |a| == |b|
    requires forall k :: 0 <= k < |a| ==> clean(a[k]) == clean(b[k])
    ensures KeepFirst(a, clean, key) == KeepFirst(b, clean, key)
    decreases |a|
  {
    if a != [] {
      var m := |a| - 1;
      assert forall k :: 0 <= k < m ==> a[..m][k] == a[k] && b[..m][k] == b[k];
      KeepFirstOfCleaned(a[..m], b[..m], clean, key);
    }
  }

  /** A list of names that cleaning leaves alone, without blanks and
      without two equal keys, comes back unchanged. */
  lemma {:induction false} KeepFirstOfDistinct(names: seq<string>, clean: string -> string, key: string -> string)
    requires forall n :: n in names ==> n != [] && clean(n) == n
    requires forall i, j :: 0 <= i < j < |names| ==> key(names[i]) != key(names[j])
    ensures KeepFirst(names, clean, key) == names
    decreases |names|
  {
    if names != [] {
      var m := |names| - 1;
      var prev := names[..m];
      assert forall n :: n in prev ==> n in names;
      KeepFirstOfDistinct(prev, clean, key);
      assert names[m] in names;
      forall n | n in prev ensures key(n) != key(names[m]) {
        var i :| 0 <= i < m && prev[i] == n;
      }
      assert key(names[m]) !in Keys(prev, key);
      assert KeepFirst(names, clean, key) == AddName(prev, names[m], key);
      assert prev + [names[m]] == names;
    }
  }

  /** The panel's cleaning: trimmed, blanks dropped, names equal up to
      letter case kept once, at their first spelling. */
  function DistinctNames(values: seq<string>): (r: seq<string>)
    ensures forall n :: n in r ==> n != [] && IsTrimmed(n)
    ensures forall i, j :: 0 <= i < j < |r| ==> ToLower(r[i]) != ToLower(r[j])
  {
    KeepFirstSound(values, Trim, ToLower);
    KeepFirst(values, Trim, ToLower)
  }

  /** Cleaning twice is cleaning once. */
  lemma DistinctNamesIdempotent(values: seq<string>)
    ensures DistinctNames(DistinctNames(values)) == DistinctNames(values)
  {
    var r := DistinctNames(values);
    forall n | n in r ensures Trim(n) == n {
      TrimmedIsFixed(n);
    }
    KeepFirstOfDistinct(r, Trim, ToLower);
  }
}
