// A stream cut into reads.
module Chunks {

  function Joined<T>(chunks: seq<seq<T>>): seq<T> {
    if chunks == [] then [] else chunks[0] + Joined(chunks[1..])
  }

  lemma NothingJoined<T>()
    ensures Joined<T>([]) == []
  {
  }

  lemma JoinedFirst<T>(chunks: seq<seq<T>>)
    requires chunks != []
    ensures Joined(chunks) == chunks[0] + Joined(chunks[1..])
  {
  }

  lemma {:induction false} JoinedSnoc<T>(chunks: seq<seq<T>>, c: seq<T>)
    ensures Joined(chunks + [c]) == Joined(chunks) + c
  {
    if chunks == [] {
      assert (chunks + [c])[1..] == [];
    } else {
      JoinedSnoc(chunks[1..], c);
      assert (chunks + [c])[1..] == chunks[1..] + [c];
      assert chunks[0] + (Joined(chunks[1..]) + c) == (chunks[0] + Joined(chunks[1..])) + c;
    }
  }
}
