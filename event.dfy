/**
 * Event (src/event.ts): a set of handlers, kept in the order they were
 * first added (a JavaScript `Set` iterates in insertion order), that
 * `invoke` calls one after the other with the same source and argument.
 *
 * Handlers are values compared by identity (`H(==)`); what a handler does
 * when it is called is outside this model, so `invoke` returns the calls it
 * makes instead of making them.
 */
module Events {

  /** The call `handler(source, e)`. */
  datatype Call<H, S, A> = Call(handler: H, source: S, args: A)

  /** No handler occurs twice: the order of a `Set`. */
  predicate Distinct<H(==)>(s: seq<H>) {
    forall i, j :: 0 <= i < j < |s| ==> s[i] != s[j]
  }

  /** `set.add(h)`: appended when absent, otherwise nothing changes. */
  function Added<H(==)>(s: seq<H>, h: H): (r: seq<H>)
    ensures h in r
    ensures forall i :: 0 <= i < |s| ==> s[i] in r
    ensures forall i :: 0 <= i < |r| ==> r[i] in s || r[i] == h
  {
    if h in s then s else s + [h]
  }

  /** `set.delete(h)`: every other handler, in the same order. */
  function Without<H(==)>(s: seq<H>, h: H): (r: seq<H>)
    ensures h !in r
    ensures forall i :: 0 <= i < |r| ==> r[i] in s
    ensures forall i :: 0 <= i < |s| && s[i] != h ==> s[i] in r
    ensures |r| <= |s|
  {
    if s == [] then []
    else (if s[0] == h then [] else [s[0]]) + Without(s[1..], h)
  }

  /** Adding a handler that is already there changes nothing, in membership or order. */
  lemma AddIdempotent<H>(s: seq<H>, h: H)
    ensures Added(Added(s, h), h) == Added(s, h)
  {
  }

  /** Adding keeps the handlers distinct. */
  lemma AddKeepsDistinct<H>(s: seq<H>, h: H)
    requires Distinct(s)
    ensures Distinct(Added(s, h))
  {
  }

  /** Removing an absent handler is a no-op. */
  lemma {:induction false} RemoveAbsent<H>(s: seq<H>, h: H)
    requires h !in s
    ensures Without(s, h) == s
  {
    if s != [] {
      assert s[0] != h && h !in s[1..];
      RemoveAbsent(s[1..], h);
      assert [s[0]] + s[1..] == s;
    }
  }

  /**
   * Removing a registered handler takes out exactly that entry; the others
   * keep their relative order.
   */
  lemma {:induction false} RemoveAt<H>(s: seq<H>, k: nat)
    requires Distinct(s) && k < |s|
    ensures Without(s, s[k]) == s[..k] + s[k + 1..]
  {
    DistinctTail(s);
    if k == 0 {
      RemoveFirst(s);
    } else {
      assert s[1..][k - 1] == s[k];
      RemoveAt(s[1..], k - 1);
      RemoveLater(s, k);
    }
  }

  /** Removing the first handler, when it occurs nowhere else, leaves the rest. */
  lemma RemoveFirst<H>(s: seq<H>)
    requires s != [] && s[0] !in s[1..]
    ensures Without(s, s[0]) == s[..0] + s[1..]
  {
    RemoveAbsent(s[1..], s[0]);
    assert s[..0] + s[1..] == s[1..];
  }

  /** Removing a later handler keeps the first and removes it from the rest. */
  lemma RemoveLater<H>(s: seq<H>, k: nat)
    requires 0 < k < |s| && s[0] != s[k]
    requires Without(s[1..], s[k]) == s[1..][..k - 1] + s[1..][k..]
    ensures Without(s, s[k]) == s[..k] + s[k + 1..]
  {
    var h, t := s[k], s[1..];
    calc {
      Without(s, h);
      [s[0]] + Without(t, h);
      [s[0]] + (t[..k - 1] + t[k..]);
      ([s[0]] + t[..k - 1]) + t[k..];
      { HeadThenPrefix(s, k); assert t[k..] == s[k + 1..]; }
      s[..k] + s[k + 1..];
    }
  }

  /** Removing keeps the handlers distinct. */
  lemma {:induction false} RemoveKeepsDistinct<H>(s: seq<H>, h: H)
    requires Distinct(s)
    ensures Distinct(Without(s, h))
  {
    if s != [] {
      DistinctTail(s);
      RemoveKeepsDistinct(s[1..], h);
    }
  }

  lemma HeadThenPrefix<H>(s: seq<H>, k: nat)
    requires 0 < k <= |s|
    ensures [s[0]] + s[1..][..k - 1] == s[..k]
  {
    var u := [s[0]] + s[1..][..k - 1];
    forall i | 0 <= i < k ensures u[i] == s[i] {
      if i > 0 {
        assert u[i] == s[1..][i - 1];
      }
    }
  }

  /** The tail of a distinct sequence is distinct and does not hold its head. */
  lemma DistinctTail<H>(s: seq<H>)
    requires Distinct(s) && s != []
    ensures Distinct(s[1..]) && s[0] !in s[1..]
  {
    var t := s[1..];
    forall i, j | 0 <= i < j < |t| ensures t[i] != t[j] {
      assert t[i] == s[i + 1] && t[j] == s[j + 1];
    }
    forall j | 0 <= j < |t| ensures t[j] != s[0] {
      assert t[j] == s[j + 1];
    }
  }

  /** Adding a new handler and removing it again restores the set. */
  lemma AddThenRemove<H>(s: seq<H>, h: H)
    requires h !in s
    ensures Without(Added(s, h), h) == s
  {
    WithoutConcat(s, [h], h);
    RemoveAbsent(s, h);
    assert Without([h], h) == [];
  }

  /** Removing from a concatenation removes from each part. */
  lemma {:induction false} WithoutConcat<H>(a: seq<H>, b: seq<H>, h: H)
    ensures Without(a + b, h) == Without(a, h) + Without(b, h)
  {
    if a != [] {
      assert (a + b)[0] == a[0] && (a + b)[1..] == a[1..] + b;
      WithoutConcat(a[1..], b, h);
    } else {
      assert a + b == b;
    }
  }

  class Event<H(==), A> {
    /** `_handlers`, in insertion order. */
    var handlers: seq<H>

    ghost predicate Valid()
      reads this
    {
      Distinct(handlers)
    }

    /** A new event has no handlers. */
    constructor ()
      ensures handlers == [] && Valid()
    {
      handlers := [];
    }

    /** `add(handler)` */
    method Add(h: H)
      modifies this
      ensures handlers == Added(old(handlers), h)
      ensures old(Valid()) ==> Valid()
    {
      if h !in handlers {
        handlers := handlers + [h];
      }
      if old(Valid()) {
        AddKeepsDistinct(old(handlers), h);
      }
    }

    /** `remove(handler)` */
    method Remove(h: H)
      modifies this
      ensures handlers == Without(old(handlers), h)
      ensures old(Valid()) ==> Valid()
    {
      handlers := Without(handlers, h);
      if old(Valid()) {
        RemoveKeepsDistinct(old(handlers), h);
      }
    }

    /** `invoke(source, e)`: one call per handler, in order, each with `source` and `e`. */
    method Invoke<S>(source: S, e: A) returns (calls: seq<Call<H, S, A>>)
      ensures |calls| == |handlers|
      ensures forall i :: 0 <= i < |calls| ==> calls[i] == Call(handlers[i], source, e)
    {
      calls := [];
      for i := 0 to |handlers|
        invariant |calls| == i
        invariant forall k :: 0 <= k < i ==> calls[k] == Call(handlers[k], source, e)
      {
        calls := calls + [Call(handlers[i], source, e)];
      }
    }
  }

  /**
   * Two distinct handlers, the first added twice: invoking calls each once,
   * in the order they were first added; after removing the first, only the
   * second is called.
   */
  method TwoHandlers<H(==), S, A>(first: H, second: H, source: S, e: A)
    returns (before: seq<Call<H, S, A>>, after: seq<Call<H, S, A>>)
    requires first != second
    ensures before == [Call(first, source, e), Call(second, source, e)]
    ensures after == [Call(second, source, e)]
  {
    var ev := new Event<H, A>();
    ev.Add(first);
    ev.Add(second);
    ev.Add(first);
    before := ev.Invoke(source, e);
    ev.Remove(first);
    after := ev.Invoke(source, e);
  }
}
