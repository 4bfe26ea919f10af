/** Small shared vocabulary: an optional value, and the order-preserving
    sub-sequence relation used to state "in arrival order" and "in
    enumeration order" properties. */
module Common {

  datatype Option<+T> = None | Some(value: T)

  /** `a` is obtained from `b` by deleting some elements, keeping the rest in
      their original order. */
  predicate Embeds<T(==)>(a: seq<T>, b: seq<T>)
    decreases |b|
  {
    if a == [] then true
    else if b == [] then false
    else (a[0] == b[0] && Embeds(a[1..], b[1..])) || Embeds(a, b[1..])
  }

  /** Appending the same element to both sides keeps the embedding. */
  lemma {:induction false} EmbedsSnoc<T>(a: seq<T>, b: seq<T>, x: T)
    requires Embeds(a, b)
    ensures Embeds(a + [x], b + [x])
    decreases |b|
  {
    if b == [] {
      assert a == [];
      assert Embeds([x][1..], [x][1..]);
    } else {
      assert (b + [x])[1..] == b[1..] + [x];
      if a == [] {
        EmbedsSnoc(a, b[1..], x);
      } else {
        assert (a + [x])[0] == a[0] && (a + [x])[1..] == a[1..] + [x];
        if a[0] == b[0] && Embeds(a[1..], b[1..]) {
          EmbedsSnoc(a[1..], b[1..], x);
        } else {
          EmbedsSnoc(a, b[1..], x);
        }
      }
    }
  }

  /** Deleting one more element from the left side keeps the embedding. */
  lemma {:induction false} EmbedsDelete<T>(a: seq<T>, b: seq<T>, i: nat)
    requires Embeds(a, b) && i < |a|
    ensures Embeds(a[..i] + a[i + 1..], b)
    decreases |b|
  {
    var c := a[..i] + a[i + 1..];
    assert b != [];
    if a[0] == b[0] && Embeds(a[1..], b[1..]) {
      if i == 0 {
        assert c == a[1..];
      } else {
        assert c[0] == a[0];
        assert c[1..] == a[1..][..i - 1] + a[1..][i..];
        EmbedsDelete(a[1..], b[1..], i - 1);
      }
    } else {
      EmbedsDelete(a, b[1..], i);
    }
  }
}
