/** The optional value that the detector's `None` returns stand for. */
module Wrappers {

  datatype Option<+T> = None | Some(value: T)

  /** The zero- or one-element sequence holding the value of `o`, if any. */
  function ToSeq<T>(o: Option<T>): (s: seq<T>)
    ensures |s| <= 1
    ensures o.None? <==> s == []
    ensures o.Some? ==> s == [o.value]
  {
    match o
    case None => []
    case Some(v) => [v]
  }

  /** The values `f` yields on the elements of `s`, in the order of `s`, skipping `None`s. */
  function FilterMap<A, B>(s: seq<A>, f: A -> Option<B>): (r: seq<B>)
    ensures |r| <= |s|
  {
    if s == [] then [] else FilterMap(s[..|s| - 1], f) + ToSeq(f(s[|s| - 1]))
  }

  /** A value appears in `FilterMap(s, f)` exactly when `f` yields it on some element of `s`. */
  lemma {:induction false} FilterMapMembers<A, B>(s: seq<A>, f: A -> Option<B>, x: B)
    ensures x in FilterMap(s, f) <==> exists j :: 0 <= j < |s| && f(s[j]) == Some(x)
  {
    if s != [] {
      var init, last := s[..|s| - 1], s[|s| - 1];
      FilterMapMembers(init, f, x);
      assert FilterMap(s, f) == FilterMap(init, f) + ToSeq(f(last));
      assert x in ToSeq(f(last)) <==> f(last) == Some(x);
      if j :| 0 <= j < |s| && f(s[j]) == Some(x) {
        if j < |init| {
          assert init[j] == s[j];
        }
      }
      if j :| 0 <= j < |init| && f(init[j]) == Some(x) {
        assert s[j] == init[j];
      }
    }
  }
}
