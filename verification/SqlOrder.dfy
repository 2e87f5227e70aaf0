/** The total preorder by which SQLite sorts values. */
module SqlOrder {
  import opened Sql

  lemma {:induction false} TextTrichotomy(a: string, b: string)
    ensures !(TextLess(a, b) && TextLess(b, a))
    ensures !TextLess(a, b) && !TextLess(b, a) <==> a == b
    decreases |a|
  {
    if a != "" && b != "" && a[0] == b[0] {
      TextTrichotomy(a[1..], b[1..]);
      assert a == [a[0]] + a[1..] && b == [b[0]] + b[1..];
    }
  }

  lemma {:induction false} TextTransitive(a: string, b: string, c: string)
    requires TextLess(a, b) && TextLess(b, c)
    ensures TextLess(a, c)
    decreases |a|
  {
    if a != "" && a[0] == b[0] && b[0] == c[0] {
      TextTransitive(a[1..], b[1..], c[1..]);
    }
  }

  /** NULL sorts before every value. */
  predicate Precedes(a: Sql, b: Sql) {
    !b.VNull? && (a.VNull? || Less(a, b))
  }

  predicate Ties(a: Sql, b: Sql) {
    if a.VNull? || b.VNull? then a == b else Same(a, b)
  }

  lemma PrecedesTrichotomy(a: Sql, b: Sql)
    ensures !(Precedes(a, b) && Precedes(b, a))
    ensures !Precedes(a, b) && !Precedes(b, a) <==> Ties(a, b)
    ensures Ties(a, b) <==> Ties(b, a)
  {
    hide TextLess;
    if a.VText? && b.VText? {
      TextTrichotomy(a.s, b.s);
    }
  }

  lemma PrecedesTransitive(a: Sql, b: Sql, c: Sql)
    ensures Precedes(a, b) && Precedes(b, c) ==> Precedes(a, c)
    ensures Ties(a, b) ==> (Precedes(b, c) <==> Precedes(a, c)) && (Ties(b, c) <==> Ties(a, c))
    ensures Ties(b, c) ==> (Precedes(a, b) <==> Precedes(a, c)) && (Ties(a, b) <==> Ties(a, c))
  {
    hide TextLess;
    if a.VText? && b.VText? && c.VText? && TextLess(a.s, b.s) && TextLess(b.s, c.s) {
      TextTransitive(a.s, b.s, c.s);
    }
  }
}
