/** The duplicate window of src/bridge.rs: a queue and a set that stand for the last keys admitted. */
module RecentPackets {
  import opened Bytes

  /** Sender and packet id. */
  type Key = (u32, u32)

  /** Keys remembered: the capacity, except that a capacity of 0 still remembers one key. */
  function Span(capacity: nat): nat {
    if capacity == 0 then 1 else capacity
  }

  /** The last keys of a log, oldest first. */
  function Window(capacity: nat, log: seq<Key>): seq<Key> {
    if |log| <= Span(capacity) then log else log[|log| - Span(capacity)..]
  }

  /** Admit a key that is not remembered; a remembered key changes nothing. */
  function Admit(capacity: nat, log: seq<Key>, k: Key): seq<Key> {
    if k in Window(capacity, log) then log else log + [k]
  }

  ghost predicate Distinct(s: seq<Key>) {
    forall i, j :: 0 <= i < j < |s| ==> s[i] != s[j]
  }

  /** The window after one more key: the oldest goes if it is full. */
  lemma WindowOfMore(capacity: nat, log: seq<Key>, k: Key)
    ensures var w := Window(capacity, log);
            Window(capacity, log + [k]) == (if |w| >= capacity && w != [] then w[1..] else w) + [k]
  {
    var w := Window(capacity, log);
    if |log| < Span(capacity) {
    } else {
      assert (log + [k])[|log| + 1 - Span(capacity)..] == w[1..] + [k];
    }
  }

  function Members(order: seq<Key>): set<Key> {
    set k | k in order
  }

  lemma KeyAdded(order: seq<Key>, k: Key)
    requires Distinct(order) && k !in order
    ensures Distinct(order + [k]) && Members(order + [k]) == Members(order) + {k}
  {
  }

  lemma OldestDropped(order: seq<Key>, k: Key)
    requires Distinct(order) && k !in order && order != []
    ensures Distinct(order[1..] + [k])
    ensures Members(order[1..] + [k]) == Members(order) + {k} - {order[0]}
  {
    assert order == [order[0]] + order[1..];
  }

  class Recent {
    var order: seq<Key>
    var members: set<Key>
    const capacity: nat
    ghost var log: seq<Key>  // every key ever admitted, in order

    ghost predicate Valid()
      reads this
    {
      && order == Window(capacity, log)
      && members == Members(order)
      && Distinct(order)
    }

    constructor (capacity: nat)
      ensures Valid() && log == [] && this.capacity == capacity
    {
      this.capacity := capacity;
      order := [];
      members := {};
      log := [];
    }

    method Insert(k: Key) returns (isNew: bool)
      requires Valid()
      modifies this
      ensures Valid()
      ensures isNew <==> k !in Window(capacity, old(log))
      ensures log == Admit(capacity, old(log), k)
    {
      hide Distinct, Window;
      if k in members {
        return false;
      }
      ghost var before, was := log, order;
      WindowOfMore(capacity, before, k);
      members := members + {k};
      if |order| >= capacity {
        if order != [] {
          var oldest := order[0];
          order := order[1..];
          members := members - {oldest};
        }
      }
      order := order + [k];
      log := log + [k];
      KeyAdded(was, k);
      if was != [] {
        OldestDropped(was, k);
      }
      return true;
    }
  }

  // ----- runs of insertions -----

  /** The log after inserting a list of keys into a new window. */
  function LogOf(capacity: nat, keys: seq<Key>): seq<Key>
    decreases |keys|
  {
    if keys == [] then [] else Admit(capacity, LogOf(capacity, keys[..|keys| - 1]), keys[|keys| - 1])
  }

  /** Equal keys in the log are more than a window apart. */
  ghost predicate Spaced(capacity: nat, log: seq<Key>) {
    forall i, j :: 0 <= i < j < |log| && log[i] == log[j] ==> j - i > Span(capacity)
  }

  lemma WindowHoldsTail(capacity: nat, log: seq<Key>)
    ensures forall i :: 0 <= i < |log| && |log| - i <= Span(capacity) ==> log[i] in Window(capacity, log)
  {
    var w := Window(capacity, log);
    var o := |log| - |w|;
    forall i | 0 <= i < |log| && |log| - i <= Span(capacity)
      ensures log[i] in w
    {
      assert log[i] == w[i - o];
    }
  }

  /** A key is admitted if and only if it is not among the last `capacity` admitted ones - the last one, for a
      capacity of 0. */
  lemma AdmitsExactly(capacity: nat, log: seq<Key>, k: Key)
    ensures Admit(capacity, log, k) == log
       <==> exists n :: 0 <= n < |log| && (|log| - n <= capacity || n == |log| - 1) && log[n] == k
    ensures Admit(capacity, log, k) != log ==> Admit(capacity, log, k) == log + [k]
  {
    assert |log + [k]| == |log| + 1;
    WindowHoldsTail(capacity, log);
    var w := Window(capacity, log);
    if k in w {
      var i :| 0 <= i < |w| && w[i] == k;
      assert log[|log| - |w| + i] == k;
    }
  }

  lemma AdmitKeepsSpaced(capacity: nat, log: seq<Key>, k: Key)
    requires Spaced(capacity, log)
    ensures Spaced(capacity, Admit(capacity, log, k))
  {
    var w := Window(capacity, log);
    if k !in w {
      WindowHoldsTail(capacity, log);
    }
  }

  /** Any Span + 1 consecutively admitted keys are pairwise distinct, over every run of insertions. */
  lemma {:induction false} EveryRunIsSpaced(capacity: nat, keys: seq<Key>)
    ensures Spaced(capacity, LogOf(capacity, keys))
    decreases |keys|
  {
    if keys == [] {
    } else {
      EveryRunIsSpaced(capacity, keys[..|keys| - 1]);
      AdmitKeepsSpaced(capacity, LogOf(capacity, keys[..|keys| - 1]), keys[|keys| - 1]);
    }
  }
}
