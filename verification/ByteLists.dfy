/** A buffer's bytes kept as a list of pieces, one a chain. */
module ByteLists {
  import opened Octets

  function Flat(ps: seq<seq<Byte>>): seq<Byte> {
    if ps == [] then [] else ps[0] + Flat(ps[1..])
  }

  lemma Associative(a: seq<Byte>, b: seq<Byte>, c: seq<Byte>)
    ensures a + b + c == a + (b + c)
  {
  }

  lemma {:induction false} FlatConcat(a: seq<seq<Byte>>, b: seq<seq<Byte>>)
    ensures Flat(a + b) == Flat(a) + Flat(b)
  {
    if a == [] {
      assert a + b == b;
    } else {
      FlatConcat(a[1..], b);
      assert (a + b)[1..] == a[1..] + b;
      Associative(a[0], Flat(a[1..]), Flat(b));
    }
  }

  lemma FlatOne(p: seq<Byte>)
    ensures Flat([p]) == p
  {
    assert Flat([p]) == p + Flat([p][1..]);
    assert [p][1..] == [];
  }

  /** The bytes before piece i, the piece, and the bytes behind it. */
  lemma FlatAt(ps: seq<seq<Byte>>, i: nat)
    requires i < |ps|
    ensures Flat(ps) == Flat(ps[..i]) + (ps[i] + Flat(ps[i + 1..]))
    ensures Flat(ps[..i + 1]) == Flat(ps[..i]) + ps[i]
    ensures Flat(ps[i..]) == ps[i] + Flat(ps[i + 1..])
  {
    hide Flat;
    SplitAt(ps, i);
    FlatConcat(ps[..i], ps[i..]);
    FlatPrepend(ps[i], ps[i + 1..]);
    FlatAppend(ps[..i], ps[i]);
  }

  lemma SplitAt<T>(s: seq<T>, i: nat)
    requires i < |s|
    ensures s == s[..i] + s[i..] && s[i..] == [s[i]] + s[i + 1..] && s[..i + 1] == s[..i] + [s[i]]
  {
  }

  lemma FlatAppend(ps: seq<seq<Byte>>, p: seq<Byte>)
    ensures Flat(ps + [p]) == Flat(ps) + p
  {
    FlatConcat(ps, [p]);
    FlatOne(p);
  }

  lemma FlatPrepend(p: seq<Byte>, ps: seq<seq<Byte>>)
    ensures Flat([p] + ps) == p + Flat(ps)
  {
    FlatConcat([p], ps);
    FlatOne(p);
  }

  /** Bytes added to the last piece are added at the end. */
  lemma FlatExtended(front: seq<seq<Byte>>, p: seq<Byte>, data: seq<Byte>)
    ensures Flat(front + [p + data]) == Flat(front + [p]) + data
  {
    hide Flat;
    FlatAppend(front, p);
    FlatAppend(front, p + data);
    Associative(Flat(front), p, data);
  }

  /** Bytes put in front of the first piece come first. */
  lemma FlatPreceded(data: seq<Byte>, p: seq<Byte>, rest: seq<seq<Byte>>)
    ensures Flat([data + p] + rest) == data + Flat([p] + rest)
  {
    hide Flat;
    FlatPrepend(data + p, rest);
    FlatPrepend(p, rest);
    Associative(data, p, Flat(rest));
  }
}
