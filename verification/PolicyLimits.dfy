/** The limits of the duplicate-key check on concrete families of documents. */
module PolicyLimits {
  import opened Text
  import opened PolicyScanner

  /** `n` arrays, one in the other. */
  function Nested(n: nat): Tree {
    if n == 0 then NullTree else ArrayTree([Nested(n - 1)])
  }

  lemma {:induction false} NestedHeight(n: nat)
    ensures Height(Nested(n)) == n && DistinctKeys(Nested(n))
  {
    if n > 0 {
      NestedHeight(n - 1);
      var items := [Nested(n - 1)];
      assert items[1..] == [];
      assert ItemsHeight(items[1..]) == 0;
    }
  }

  lemma AcceptedTree(tree: Tree)
    ensures Scan(Tokens(tree), 0) == Some([]) <==> Fits(tree, 0)
  {
    ScanDocument(tree, [], 0);
    assert Tokens(tree) + [] == Tokens(tree);
  }

  /** 128 arrays around a value are accepted, more are not. */
  lemma NestingLimit(n: nat)
    ensures Scan(Tokens(Nested(n)), 0) == Some([]) <==> n <= 128
  {
    NestedHeight(n);
    AcceptedTree(Nested(n));
  }

  lemma FlatHeight(fields: seq<Field>)
    requires forall i :: 0 <= i < |fields| ==> fields[i].value == NullTree
    ensures FieldsHeight(fields) <= 1
  {
    if fields != [] {
      FlatHeight(fields[1..]);
    }
  }

  /** Two members of one object pass exactly if their keys differ by more than case and surrounding space. */
  lemma TwoMembers(j: string, k: string)
    ensures Scan(Tokens(ObjectTree([Field(j, NullTree), Field(k, NullTree)])), 0) == Some([])
            <==> ToLower(TrimSpace(j)) != ToLower(TrimSpace(k))
  {
    var fields := [Field(j, NullTree), Field(k, NullTree)];
    FlatHeight(fields);
    assert fields[0].key == j && fields[1].key == k;
    assert DistinctKeys(ObjectTree(fields)) <==> Normalize(j) != Normalize(k);
    AcceptedTree(ObjectTree(fields));
  }
}
