/** The cart page's line-item edits: `updateQuantity` (adjust one id's
    quantity, then drop every non-positive line) and `removeItem` (drop every
    line of one id). Both are pure transforms of the item list the page
    holds; neither reaches the backend.
 */
module Cart {
  import opened Http

  /** A cart line as fetched from the buy-now listing; `id` is its `_id`. */
  datatype CartItem = CartItem(id: string, name: JsValue, price: JsValue, image: JsValue, quantity: int)

  function Max(a: int, b: int): int
  {
    if a >= b then a else b
  }

  /** The `map` step of `updateQuantity`: a line of the given id gets
      quantity `max(0, quantity + delta)`, any other line is left as is. */
  function Adjust(item: CartItem, id: string, delta: int): CartItem
  {
    if item.id == id then item.(quantity := Max(0, item.quantity + delta)) else item
  }

  function AdjustAll(items: seq<CartItem>, id: string, delta: int): (r: seq<CartItem>)
    ensures |r| == |items|
    ensures forall k :: 0 <= k < |items| ==> r[k] == Adjust(items[k], id, delta)
  {
    seq(|items|, k requires 0 <= k < |items| => Adjust(items[k], id, delta))
  }

  /** JavaScript's `Array.prototype.filter`: the elements `keep` accepts, in
      their original order. */
  function Filter<T>(s: seq<T>, keep: T -> bool): (r: seq<T>)
    ensures |r| <= |s|
    ensures forall x :: x in r ==> x in s && keep(x)
    ensures forall x :: x in s && keep(x) ==> x in r
  {
    if |s| == 0 then []
    else if keep(s[0]) then [s[0]] + Filter(s[1..], keep)
    else Filter(s[1..], keep)
  }

  /** `r` is the subsequence of `s` at the strictly increasing positions `idx`. */
  ghost predicate Selection<T>(r: seq<T>, s: seq<T>, idx: seq<int>)
  {
    && |idx| == |r|
    && (forall k :: 0 <= k < |idx| ==> 0 <= idx[k] < |s| && r[k] == s[idx[k]])
    && (forall k, l :: 0 <= k < l < |idx| ==> idx[k] < idx[l])
  }

  /** Positions in the tail `s[1..]`, moved to positions in `s`. */
  function Shift(idx: seq<int>): (r: seq<int>)
    ensures |r| == |idx|
    ensures forall k :: 0 <= k < |idx| ==> r[k] == idx[k] + 1
  {
    seq(|idx|, k requires 0 <= k < |idx| => idx[k] + 1)
  }

  /** A selection from the tail of `s` is a selection from `s` once shifted,
      and stays one with the head of `s` put in front. */
  lemma ShiftSelection<T>(f: seq<T>, s: seq<T>, rest: seq<int>)
    requires |s| > 0 && Selection(f, s[1..], rest)
    ensures Selection(f, s, Shift(rest))
    ensures Selection([s[0]] + f, s, [0] + Shift(rest))
  {
    var sh := Shift(rest);
    forall k | 0 <= k < |sh| ensures 0 <= sh[k] < |s| && f[k] == s[sh[k]] {
      assert s[1..][rest[k]] == s[rest[k] + 1];
    }
    var f' := [s[0]] + f;
    var idx := [0] + sh;
    forall k | 0 <= k < |idx| ensures 0 <= idx[k] < |s| && f'[k] == s[idx[k]] {
      if k > 0 {
        assert idx[k] == sh[k - 1] && f'[k] == f[k - 1];
      }
    }
    forall k, l | 0 <= k < l < |idx| ensures idx[k] < idx[l] {
      if k > 0 {
        assert idx[k] == sh[k - 1] && idx[l] == sh[l - 1];
      } else {
        assert idx[l] == rest[l - 1] + 1;
        assert 0 <= rest[l - 1];
      }
    }
  }

  /** The inductive step of `FilterSelects`: a selection of exactly the
      accepted elements of the tail of `s` extends to one of `s`. */
  lemma ExtendSelection<T>(s: seq<T>, keep: T -> bool, f: seq<T>, rest: seq<int>) returns (idx: seq<int>)
    requires |s| > 0 && Selection(f, s[1..], rest)
    requires forall j :: 0 <= j < |s[1..]| && keep(s[1..][j]) ==> j in rest
    requires forall k :: 0 <= k < |rest| ==> keep(s[1..][rest[k]])
    ensures Selection(if keep(s[0]) then [s[0]] + f else f, s, idx)
    ensures forall j :: 0 <= j < |s| && keep(s[j]) ==> j in idx
    ensures forall k :: 0 <= k < |idx| ==> keep(s[idx[k]])
  {
    var tail := s[1..];
    var sh := Shift(rest);
    ShiftSelection(f, s, rest);
    forall j | 1 <= j < |s| && keep(s[j])
      ensures j in sh
    {
      assert tail[j - 1] == s[j];
      var k :| 0 <= k < |rest| && rest[k] == j - 1;
      assert sh[k] == j;
    }
    forall k | 0 <= k < |sh| ensures keep(s[sh[k]]) {
      assert s[sh[k]] == tail[rest[k]];
    }
    if keep(s[0]) {
      idx := [0] + sh;
      forall j | 0 <= j < |s| && keep(s[j]) ensures j in idx {
        if j == 0 {
          assert idx[0] == 0;
        } else {
          var k :| 0 <= k < |sh| && sh[k] == j;
          assert idx[k + 1] == j;
        }
      }
      forall k | 0 <= k < |idx| ensures keep(s[idx[k]]) {
        if k > 0 {
          assert idx[k] == sh[k - 1];
        }
      }
    } else {
      idx := sh;
      forall j | 0 <= j < |s| && keep(s[j]) ensures j in idx {
        assert j != 0;
      }
    }
  }

  /** `Filter` keeps order: its result is the subsequence of its input at the
      positions of exactly the accepted elements. */
  lemma {:induction false} FilterSelects<T>(s: seq<T>, keep: T -> bool) returns (idx: seq<int>)
    ensures Selection(Filter(s, keep), s, idx)
    ensures forall j :: 0 <= j < |s| && keep(s[j]) ==> j in idx
    ensures forall k :: 0 <= k < |idx| ==> keep(s[idx[k]])
  {
    if |s| == 0 {
      idx := [];
    } else {
      var rest := FilterSelects(s[1..], keep);
      idx := ExtendSelection(s, keep, Filter(s[1..], keep), rest);
    }
  }

  /** Filtering twice with the same test is filtering once. */
  lemma {:induction false} FilterIdempotent<T>(s: seq<T>, keep: T -> bool)
    ensures Filter(Filter(s, keep), keep) == Filter(s, keep)
  {
    if |s| > 0 {
      FilterIdempotent(s[1..], keep);
      if keep(s[0]) {
        var f := Filter(s, keep);
        assert f[0] == s[0] && f[1..] == Filter(s[1..], keep);
      }
    }
  }

  /** The `filter` test of `updateQuantity`: a line with a positive quantity. */
  predicate InStock(item: CartItem)
  {
    item.quantity > 0
  }

  /** `updateQuantity(id, delta)`. */
  function UpdateQuantity(items: seq<CartItem>, id: string, delta: int): (r: seq<CartItem>)
    ensures |r| <= |items|
    ensures forall x :: x in r ==> x.quantity > 0
    ensures forall x :: x in r && x.id != id ==> x in items
    ensures forall x :: x in r && x.id == id ==>
              exists y :: y in items && y.id == id && x == y.(quantity := Max(0, y.quantity + delta))
    ensures forall y :: y in items && y.id != id && y.quantity > 0 ==> y in r
    ensures forall y :: y in items && y.id == id && y.quantity + delta > 0 ==>
              y.(quantity := y.quantity + delta) in r
  {
    var adjusted := AdjustAll(items, id, delta);
    assert forall y :: y in items && y.id != id ==> y in adjusted by {
      forall y | y in items && y.id != id ensures y in adjusted {
        var k :| 0 <= k < |items| && items[k] == y;
        assert adjusted[k] == y;
      }
    }
    assert forall y :: y in items && y.id == id ==> y.(quantity := Max(0, y.quantity + delta)) in adjusted by {
      forall y | y in items && y.id == id ensures y.(quantity := Max(0, y.quantity + delta)) in adjusted {
        var k :| 0 <= k < |items| && items[k] == y;
        assert adjusted[k] == y.(quantity := Max(0, y.quantity + delta));
      }
    }
    Filter(adjusted, InStock)
  }

  /** `removeItem(id)`. */
  function RemoveItem(items: seq<CartItem>, id: string): (r: seq<CartItem>)
    ensures forall x :: x in r ==> x.id != id
    ensures forall x :: x in r <==> x in items && x.id != id
  {
    Filter(items, (it: CartItem) => it.id != id)
  }

  /** `updateQuantity` keeps the order of the lines it keeps: the result is
      the subsequence of the adjusted lines at the positions of exactly those
      whose adjusted quantity is positive. */
  lemma UpdateQuantityKeepsOrder(items: seq<CartItem>, id: string, delta: int) returns (idx: seq<int>)
    ensures |idx| == |UpdateQuantity(items, id, delta)|
    ensures forall k :: 0 <= k < |idx| ==>
              0 <= idx[k] < |items| && UpdateQuantity(items, id, delta)[k] == Adjust(items[idx[k]], id, delta)
    ensures forall k, l :: 0 <= k < l < |idx| ==> idx[k] < idx[l]
    ensures forall j :: 0 <= j < |items| && Adjust(items[j], id, delta).quantity > 0 ==> j in idx
    ensures forall k :: 0 <= k < |idx| ==> Adjust(items[idx[k]], id, delta).quantity > 0
  {
    var adjusted := AdjustAll(items, id, delta);
    var r := UpdateQuantity(items, id, delta);
    assert r == Filter(adjusted, InStock);
    idx := FilterSelects(adjusted, InStock);
    forall k | 0 <= k < |idx|
      ensures 0 <= idx[k] < |items| && r[k] == Adjust(items[idx[k]], id, delta)
      ensures Adjust(items[idx[k]], id, delta).quantity > 0
    {
      assert r[k] == adjusted[idx[k]];
      assert InStock(adjusted[idx[k]]);
    }
    forall j | 0 <= j < |items| && Adjust(items[j], id, delta).quantity > 0
      ensures j in idx
    {
      assert InStock(adjusted[j]);
    }
  }

  /** `removeItem` keeps every other line, in order: the result is the
      subsequence of the list at the positions of exactly the lines of other ids. */
  lemma RemoveItemKeepsOrder(items: seq<CartItem>, id: string) returns (idx: seq<int>)
    ensures |idx| == |RemoveItem(items, id)|
    ensures forall k :: 0 <= k < |idx| ==> 0 <= idx[k] < |items| && RemoveItem(items, id)[k] == items[idx[k]]
    ensures forall k, l :: 0 <= k < l < |idx| ==> idx[k] < idx[l]
    ensures forall j :: 0 <= j < |items| && items[j].id != id ==> j in idx
    ensures forall k :: 0 <= k < |idx| ==> items[idx[k]].id != id
  {
    idx := FilterSelects(items, (it: CartItem) => it.id != id);
  }

  /** Removing an id twice is removing it once. */
  lemma RemoveItemIdempotent(items: seq<CartItem>, id: string)
    ensures RemoveItem(RemoveItem(items, id), id) == RemoveItem(items, id)
  {
    FilterIdempotent(items, (it: CartItem) => it.id != id);
  }
}
