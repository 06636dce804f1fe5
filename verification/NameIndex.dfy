/** An index of the first occurrence of each name in a list, kept through inserts, removals
    and rebuilds. */
module NameIndex {
  import opened Bytes

  /** The name each record of a list is found by, if any. */
  type Names = seq<Option<string>>

  /** The index holds exactly the names present, each at its first occurrence. */
  ghost predicate Indexes(names: Names, index: map<string, nat>) {
    && (forall k :: k in index ==> IsFirst(names, k, index[k]))
    && (forall i :: 0 <= i < |names| && names[i].Some? ==> names[i].value in index)
  }

  ghost predicate IsFirst(names: Names, k: string, at: nat) {
    at < |names| && names[at] == Some(k) && forall j :: 0 <= j < at ==> names[j] != Some(k)
  }

  lemma FirstIsUnique(names: Names, k: string, a: nat, b: nat)
    requires IsFirst(names, k, a) && IsFirst(names, k, b)
    ensures a == b
  {
  }

  /** A list has one index. */
  lemma IndexIsUnique(names: Names, a: map<string, nat>, b: map<string, nat>)
    requires Indexes(names, a) && Indexes(names, b)
    ensures a == b
  {
    forall k | k in a ensures k in b && b[k] == a[k] {
      assert IsFirst(names, k, a[k]);
      assert IsFirst(names, k, b[k]);
      FirstIsUnique(names, k, a[k], b[k]);
    }
    forall k | k in b ensures k in a {
      assert IsFirst(names, k, b[k]);
    }
  }

  /** The list with `name` inserted at `i`. */
  function Inserted<T>(items: seq<T>, i: nat, item: T): seq<T>
    requires i <= |items|
  {
    items[..i] + [item] + items[i..]
  }

  /** The list without its item `i`. */
  function Removed<T>(items: seq<T>, i: nat): seq<T>
    requires i < |items|
  {
    items[..i] + items[i + 1..]
  }

  lemma InsertedAt<T>(items: seq<T>, i: nat, item: T, j: nat)
    requires i <= |items| && j <= |items|
    ensures Inserted(items, i, item)[j] == if j < i then items[j] else if j == i then item else items[j - 1]
  {
  }

  /** The positions from `i` on, one further. */
  function ShiftedUp(index: map<string, nat>, i: nat): (shifted: map<string, nat>) {
    map k | k in index :: if index[k] >= i then index[k] + 1 else index[k]
  }

  /** The positions past `i`, one back. */
  function ShiftedDown(index: map<string, nat>, i: nat): (shifted: map<string, nat>) {
    map k | k in index :: if index[k] > i then index[k] - 1 else index[k]
  }

  /** The index with `name` at `i`, unless it has it earlier. */
  function Entered(index: map<string, nat>, name: Option<string>, i: nat): map<string, nat> {
    match name
    case None => index
    case Some(k) => index[k := if k in index && index[k] < i then index[k] else i]
  }

  /** Shifting the positions and entering the inserted name keeps the index. */
  lemma InsertKeeps(names: Names, index: map<string, nat>, i: nat, name: Option<string>)
    requires Indexes(names, index) && i <= |names|
    ensures Indexes(Inserted(names, i, name), Entered(ShiftedUp(index, i), name, i))
  {
    var now, shifted := Inserted(names, i, name), ShiftedUp(index, i);
    var entered := Entered(shifted, name, i);
    forall k | k in entered ensures IsFirst(now, k, entered[k]) {
      if k in index {
        assert IsFirst(names, k, index[k]);
      }
      if name == Some(k) {
        InsertedFirst(names, i, name, k, if k in index then Some(index[k]) else None);
      } else {
        assert k in index;
        InsertedFirst(names, i, name, k, Some(index[k]));
      }
    }
    forall j | 0 <= j < |now| && now[j].Some? ensures now[j].value in entered {
      InsertedAt(names, i, name, j);
    }
  }

  lemma InsertedFirst(names: Names, i: nat, name: Option<string>, k: string, at: Option<nat>)
    requires i <= |names| && (at.Some? ==> IsFirst(names, k, at.value))
    requires at == None ==> name == Some(k) && forall j :: 0 <= j < |names| ==> names[j] != Some(k)
    ensures var moved := if at == None then i else if at.value >= i then at.value + 1 else at.value;
            IsFirst(Inserted(names, i, name), k, if name == Some(k) && i <= moved then i else moved)
  {
    var now := Inserted(names, i, name);
    forall j | 0 <= j < |now| ensures now[j] == if j < i then names[j] else if j == i then name else names[j - 1] {
      InsertedAt(names, i, name, j);
    }
  }

  /** The first of `names` from `i` on that is `k`. */
  function FindFrom(names: Names, k: string, i: nat): (at: Option<nat>)
    requires i <= |names|
    ensures at.Some? ==> i <= at.value < |names| && names[at.value] == Some(k) && forall j :: i <= j < at.value ==> names[j] != Some(k)
    ensures at == None ==> forall j :: i <= j < |names| ==> names[j] != Some(k)
    decreases |names| - i
  {
    if i == |names| then None
    else if names[i] == Some(k) then Some(i)
    else FindFrom(names, k, i + 1)
  }

  /** The index with the removed name's next occurrence in its place, if it has one. */
  function Left(index: map<string, nat>, name: Option<string>, i: nat, after: Names): map<string, nat>
    requires i <= |after|
  {
    match name
    case None => index
    case Some(k) =>
      if k in index && index[k] == i then
        match FindFrom(after, k, i)
        case Some(at) => index[k := at]
        case None => index - {k}
      else
        index
  }

  /** Shifting the positions back and finding the next of the removed name keeps the index. */
  lemma RemoveKeeps(names: Names, index: map<string, nat>, i: nat)
    requires Indexes(names, index) && i < |names|
    ensures Indexes(Removed(names, i), Left(ShiftedDown(index, i), names[i], i, Removed(names, i)))
  {
    var now := Removed(names, i);
    var left := Left(ShiftedDown(index, i), names[i], i, now);
    forall k | k in left ensures IsFirst(now, k, left[k]) {
      assert IsFirst(names, k, index[k]);
      RemovedFirst(names, i, k, index[k]);
    }
    forall j | 0 <= j < |now| && now[j].Some? ensures now[j].value in left {
      RemovedAt(names, i, j);
      assert IsFirst(names, now[j].value, index[now[j].value]);
    }
  }

  lemma RemovedAt<T>(items: seq<T>, i: nat, j: nat)
    requires i < |items| && j < |items| - 1
    ensures Removed(items, i)[j] == if j < i then items[j] else items[j + 1]
  {
  }

  /** Where the first of a name is, one item removed. */
  lemma {:induction false} RemovedFirst(names: Names, i: nat, k: string, at: nat)
    requires i < |names| && IsFirst(names, k, at)
    ensures var now := Removed(names, i);
            && (at < i ==> IsFirst(now, k, at))
            && (at > i ==> IsFirst(now, k, at - 1))
            && (at == i && FindFrom(now, k, i).Some? ==> IsFirst(now, k, FindFrom(now, k, i).value))
  {
    var now := Removed(names, i);
    forall j | 0 <= j < |now| && j < at && j < i ensures now[j] != Some(k) {
      RemovedAt(names, i, j);
    }
    if at > i {
      RemovedAt(names, i, at - 1);
      forall j | i <= j < at - 1 ensures now[j] != Some(k) {
        RemovedAt(names, i, j);
      }
    }
  }

  /** A name appended is indexed there where it is new. */
  lemma {:induction false} AppendKeeps(names: Names, index: map<string, nat>, name: Option<string>)
    requires Indexes(names, index)
    ensures Indexes(names + [name], if name.Some? && name.value !in index then index[name.value := |names|] else index)
  {
    var now := names + [name];
    var entered := if name.Some? && name.value !in index then index[name.value := |names|] else index;
    forall k | k in entered ensures IsFirst(now, k, entered[k]) {
      if k in index {
        assert IsFirst(names, k, index[k]);
      } else {
        forall j | 0 <= j < |names| ensures now[j] != Some(k) {
          assert now[j] == names[j];
        }
      }
    }
    forall j | 0 <= j < |now| && now[j].Some? ensures now[j].value in entered {
      if j < |names| {
        assert now[j] == names[j];
      }
    }
  }

  /** Inserting back what was removed gives the list again. */
  lemma InsertUndoesRemove<T>(items: seq<T>, i: nat)
    requires i < |items|
    ensures Inserted(Removed(items, i), i, items[i]) == items
  {
  }
}
