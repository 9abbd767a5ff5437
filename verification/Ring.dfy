// A sequence kept in a ring of fixed size: entry i of a run of counters
// front .. rear is stored at index i % size.
module Ring {

  /** The entries of a ring, oldest first. */
  ghost function Window<T>(q: seq<T>, front: nat, rear: nat): (w: seq<T>)
    requires front <= rear && |q| > 0
    ensures |w| == rear - front
    ensures forall i | 0 <= i < |w| :: w[i] == q[(front + i) % |q|]
  {
    seq(rear - front, i requires 0 <= i < rear - front => q[(front + i) % |q|])
  }

  lemma MultiplesApart(n: nat, a: int, b: int)
    ensures n * b - n * a <= 0 || n * b - n * a >= n
  {
    assert n * b - n * a == n * (b - a);
    if b - a <= 0 {
      assert n * (b - a) <= 0;
    } else {
      assert n * (b - a - 1) >= 0;
    }
  }

  /** Counters less than one ring apart have different indices. */
  lemma ModDistinct(i: nat, j: nat, n: nat)
    requires i < j < i + n
    ensures i % n != j % n
  {
    if i % n == j % n {
      assert i == n * (i / n) + i % n;
      assert j == n * (j / n) + j % n;
      MultiplesApart(n, i / n, j / n);
    }
  }

  lemma WindowPush<T>(q: seq<T>, front: nat, rear: nat, x: T)
    requires |q| > 0 && front <= rear < front + |q|
    ensures Window(q[rear % |q| := x], front, rear + 1) == Window(q, front, rear) + [x]
  {
    var w, v := Window(q, front, rear) + [x], Window(q[rear % |q| := x], front, rear + 1);
    forall i | 0 <= i < |v| ensures v[i] == w[i] {
      if i < rear - front {
        ModDistinct(front + i, rear, |q|);
      }
    }
  }

  lemma WindowPop<T>(q: seq<T>, front: nat, rear: nat)
    requires |q| > 0 && front < rear
    ensures Window(q, front, rear)[0] == q[front % |q|]
    ensures Window(q, front + 1, rear) == Window(q, front, rear)[1..]
  {
    var w, v := Window(q, front, rear), Window(q, front + 1, rear);
    forall i | 0 <= i < |v| ensures v[i] == w[1..][i] {
      assert front + 1 + i == front + (i + 1);
    }
  }
}
