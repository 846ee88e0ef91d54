/** Interning of strings for the profile. */
module StringTables {

  class StringTable {
    var indices: map<string, nat>
    /** The strings in index order. */
    ghost var contents: seq<string>

    /** The table is a bijection between the strings seen and 0..n-1, with "" at 0. */
    ghost predicate Valid()
      reads this
    {
      && contents != [] && contents[0] == "" && |indices| == |contents|
      && (forall s :: s in indices ==> indices[s] < |contents| && contents[indices[s]] == s)
      && (forall k :: 0 <= k < |contents| ==> contents[k] in indices && indices[contents[k]] == k)
    }

    constructor ()
      ensures Valid() && contents == [""]
    {
      indices := map["" := 0];
      contents := [""];
    }

    /** Indices never change; a string seen before keeps its own, a new one takes the next. */
    method Insert(s: string) returns (index: nat)
      requires Valid()
      modifies this
      ensures Valid() && old(contents) <= contents
      ensures index < |contents| && contents[index] == s
      ensures contents == if s in old(indices) then old(contents) else old(contents) + [s]
    {
      if s in indices {
        index := indices[s];
        assert contents[index] in contents;
      } else {
        assert forall k :: 0 <= k < |contents| ==> contents[k] != s;
        index := |indices|;
        indices := indices[s := index];
        contents := contents + [s];
      }
    }

    /** The strings in index order. The indices are 0..n-1, so each entry goes to its own place,
        which is where sorting by index puts it. */
    method Finish() returns (table: seq<string>)
      requires Valid()
      ensures table == contents
    {
      var remaining := indices.Keys;
      table := seq(|indices|, _ => "");
      while remaining != {}
        invariant remaining <= indices.Keys && |table| == |contents|
        invariant forall k :: 0 <= k < |contents| && contents[k] !in remaining ==> table[k] == contents[k]
        decreases remaining
      {
        var s :| s in remaining;
        remaining := remaining - {s};
        table := table[indices[s] := s];
      }
    }
  }
}
