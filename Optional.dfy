/** A value that may be absent: a tag the decoder did not find, a contour that was not produced. */
module Optional {
  datatype Option<+T> = None | Some(value: T)

  /** The present values of `opts`, in order. */
  function Present<T>(opts: seq<Option<T>>): seq<T>
    decreases |opts|
  {
    if opts == [] then []
    else Present(opts[..|opts| - 1]) + if opts[|opts| - 1].Some? then [opts[|opts| - 1].value] else []
  }

  /** Present keeps exactly the values that occur in `opts`, and never more items than `opts` holds. */
  lemma {:induction false} PresentSpec<T>(opts: seq<Option<T>>, c: T)
    ensures |Present(opts)| <= |opts|
    ensures c in Present(opts) <==> Some(c) in opts
    decreases |opts|
  {
    if opts != [] {
      var init := opts[..|opts| - 1];
      PresentSpec(init, c);
      assert opts == init + [opts[|opts| - 1]];
    }
  }

  /** Extending a prefix by one item extends its present values by that item's value, if any. */
  lemma PresentStep<T>(opts: seq<Option<T>>, i: int)
    requires 0 <= i < |opts|
    ensures Present(opts[..i + 1]) == Present(opts[..i]) + if opts[i].Some? then [opts[i].value] else []
  {
    assert opts[..i + 1][..i] == opts[..i];
  }
}
