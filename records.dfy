/** DummyObj of utils.py: a dictionary whose keys are also read and written as attributes.
    An attribute never set reads as None. */
module Records {

  datatype Option<T> = None | Some(value: T)

  /** The value of the last keyword argument named k, if any: the one a dict built from them keeps. */
  function LastValue<V>(kwargs: seq<(string, V)>, k: string): (r: Option<V>)
    ensures r.None? <==> forall i :: 0 <= i < |kwargs| ==> kwargs[i].0 != k
    ensures r.Some? ==> exists i :: 0 <= i < |kwargs| && kwargs[i] == (k, r.value)
                          && forall j :: i < j < |kwargs| ==> kwargs[j].0 != k
  {
    if |kwargs| == 0 then None
    else if kwargs[|kwargs| - 1].0 == k then Some(kwargs[|kwargs| - 1].1)
    else LastValue(kwargs[..|kwargs| - 1], k)
  }

  class DummyObj<V> {
    var entries: map<string, V>

    /** The value an attribute read gives: the stored value, or None for a key never set. */
    function GetAttr(item: string): (r: Option<V>)
      reads this
      ensures r.Some? <==> item in entries
      ensures r.Some? ==> entries[item] == r.value
    {
      if item in entries then Some(entries[item]) else None
    }

    /** DummyObj(**kwargs): every keyword argument is stored, in argument order. */
    constructor (kwargs: seq<(string, V)>)
      ensures forall k :: GetAttr(k) == LastValue(kwargs, k)
    {
      entries := map[];
      new;
      var i := 0;
      while i < |kwargs|
        invariant 0 <= i <= |kwargs|
        invariant forall k :: GetAttr(k) == LastValue(kwargs[..i], k)
      {
        assert kwargs[..i + 1][..i] == kwargs[..i];
        entries := entries[kwargs[i].0 := kwargs[i].1];
        i := i + 1;
      }
      assert kwargs[..i] == kwargs;
    }

    /** obj.key = value: the key reads back as value and every other key is untouched. */
    method SetAttr(key: string, value: V)
      modifies this
      ensures GetAttr(key) == Some(value)
      ensures forall k :: k != key ==> GetAttr(k) == old(GetAttr(k))
    {
      entries := entries[key := value];
    }
  }
}
