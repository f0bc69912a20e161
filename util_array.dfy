/**
 * `overwriteArray` of lib/util/index.js: replace the contents of an existing,
 * growable array in place, for arrays that are immutable properties of
 * another object.
 */
module ArrayOverwrite {

  /** A growable array, by its current elements. */
  class JsArray<T> {
    var items: seq<T>

    constructor (items: seq<T>)
      ensures this.items == items
    {
      this.items := items;
    }
  }

  /**
   * Empty `oldArray` (the `splice`), then push every element of `newArray`.
   * When the two are distinct arrays, `oldArray` ends with `newArray`'s
   * elements in order; when they are the same array the splice has already
   * emptied it, so nothing is pushed back.
   */
  method OverwriteArray<T>(oldArray: JsArray<T>, newArray: JsArray<T>)
    modifies oldArray
    ensures oldArray != newArray ==> oldArray.items == old(newArray.items) && newArray.items == old(newArray.items)
    ensures oldArray == newArray ==> oldArray.items == []
  {
    oldArray.items := [];
    var n := |newArray.items|;
    var i := 0;
    while i < n
      invariant 0 <= i <= n
      invariant oldArray == newArray ==> n == 0 && oldArray.items == []
      invariant oldArray != newArray ==> n == |newArray.items| && oldArray.items == newArray.items[..i]
    {
      oldArray.items := oldArray.items + [newArray.items[i]];
      i := i + 1;
    }
    assert oldArray != newArray ==> newArray.items[..n] == newArray.items;
  }
}
