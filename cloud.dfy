/** TagsCloudVisualization/Cloud.cs: a list of items with a centre fixed when the
    cloud is made. */
module Clouds {
  import opened Drawing

  /** `Cloud<T> : List<T>`: the list's items in order and the readonly `Center`. */
  class Cloud<T> {
    const Center: Point
    var items: seq<T>

    /** A new cloud around `center`, with no items yet. */
    constructor(center: Point)
      ensures Center == center && items == []
    {
      Center := center;
      items := [];
    }

    /** `List<T>.Add`: the item goes at the end, every earlier one keeps its place. */
    method Add(item: T)
      modifies this
      ensures items == old(items) + [item]
    {
      items := items + [item];
    }
  }
}
