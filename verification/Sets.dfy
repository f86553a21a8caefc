/** Picking a member of a set that is not empty. */
module Sets {

  lemma IntMember(s: set<int>)
    ensures s != {} ==> exists x :: x in s
  {
    if !exists x :: x in s {
      assert s == {};
    }
  }

  lemma StringMember(s: set<string>)
    ensures s != {} ==> exists x :: x in s
  {
    if !exists x :: x in s {
      assert s == {};
    }
  }
}
