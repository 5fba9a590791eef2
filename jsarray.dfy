/**
 * The in-place `Array.prototype.splice(start, deleteCount, ...items)` of
 * JavaScript, on the contents of an array. Both the control's waypoint list
 * (`spliceVias`) and the insertion preview line (`spliceLatLngs`) change
 * through it.
 */
module JsArray {
  import opened Wrappers

  /** Reading index `i` of an array: the element, or `undefined` past the end. */
  function At<T>(s: seq<T>, i: nat): Option<T>
  {
    if i < |s| then Some(s[i]) else None
  }

  /** The position splice really starts at: a negative start counts from the end; both ends are clamped. */
  function SpliceStart(len: nat, start: int): (a: nat)
    ensures a <= len
    ensures 0 <= start <= len ==> a == start
  {
    if start < 0 then (if len + start < 0 then 0 else len + start)
    else if start > len then len
    else start
  }

  /** How many elements splice really removes from position `a`. */
  function SpliceCount(len: nat, a: nat, deleteCount: int): (d: nat)
    requires a <= len
    ensures a + d <= len
    ensures 0 <= deleteCount <= len - a ==> d == deleteCount
  {
    if deleteCount < 0 then 0
    else if deleteCount > len - a then len - a
    else deleteCount
  }

  /** The contents of the array after splice. */
  function Splice<T>(s: seq<T>, start: int, deleteCount: int, items: seq<T>): (r: seq<T>)
  {
    var a := SpliceStart(|s|, start);
    var d := SpliceCount(|s|, a, deleteCount);
    s[..a] + items + s[a + d..]
  }

  /** The array splice returns: the elements it removed. */
  function SpliceRemoved<T>(s: seq<T>, start: int, deleteCount: int): (r: seq<T>)
  {
    var a := SpliceStart(|s|, start);
    var d := SpliceCount(|s|, a, deleteCount);
    s[a..a + d]
  }

  /**
   * Splicing the removed elements back in where the items went restores the
   * original contents: splice loses nothing.
   */
  lemma SpliceUndo<T>(s: seq<T>, start: int, deleteCount: int, items: seq<T>)
    ensures var a := SpliceStart(|s|, start);
            Splice(Splice(s, start, deleteCount, items), a, |items|, SpliceRemoved(s, start, deleteCount)) == s
  {
    var a := SpliceStart(|s|, start);
    var d := SpliceCount(|s|, a, deleteCount);
    var r := Splice(s, start, deleteCount, items);
    assert |r| == |s| - d + |items|;
    assert SpliceStart(|r|, a) == a;
    assert SpliceCount(|r|, a, |items|) == |items|;
    assert r[..a] == s[..a];
    assert r[a + |items|..] == s[a + d..];
    assert s == s[..a] + s[a..a + d] + s[a + d..];
  }

  /**
   * Inserting one element (deleteCount 0) at a position inside the bounds:
   * the length grows by one, the element lands at `k`, the elements before
   * `k` stay and the rest shift up by one, keeping their order.
   */
  lemma SpliceInsert<T>(s: seq<T>, k: nat, x: T)
    requires k <= |s|
    ensures var r := Splice(s, k, 0, [x]);
            |r| == |s| + 1 && r[k] == x &&
            (forall i :: 0 <= i < k ==> r[i] == s[i]) &&
            (forall i :: k < i < |r| ==> r[i] == s[i - 1]) &&
            r[..k] + r[k + 1..] == s
  {
    var r := Splice(s, k, 0, [x]);
    assert r == s[..k] + [x] + s[k..];
    assert r[..k] == s[..k];
    assert r[k + 1..] == s[k..];
  }

  /** Replacing one element inside the bounds is an indexed update. */
  lemma SpliceReplace<T>(s: seq<T>, k: nat, x: T)
    requires k < |s|
    ensures Splice(s, k, 1, [x]) == s[k := x]
  {
    var r := Splice(s, k, 1, [x]);
    assert r == s[..k] + [x] + s[k + 1..];
    assert |r| == |s|;
    forall i | 0 <= i < |s| ensures r[i] == s[k := x][i] {
      if i < k {
        assert r[i] == s[..k][i];
      } else if i > k {
        assert r[i] == s[k + 1..][i - k - 1];
      }
    }
  }
}
