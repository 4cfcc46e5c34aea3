/** What an assumption about a digest says. */
module Functions {

  ghost predicate Injective<A(!new), B>(f: A -> B) {
    forall x, y :: f(x) == f(y) ==> x == y
  }
}
