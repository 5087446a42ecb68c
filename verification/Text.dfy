/** The string operations the wire format is built from: Go's strings.Join, strings.Split and a
    two-way strings.SplitN. */
module Text {
  import opened Wrappers

  /** strings.Join with a one-character separator. */
  function Join(parts: seq<string>, sep: char): string {
    if parts == [] then ""
    else if |parts| == 1 then parts[0]
    else parts[0] + [sep] + Join(parts[1..], sep)
  }

  /** strings.Split with a one-character separator; the empty string splits into one empty part. */
  function Split(s: string, sep: char): (parts: seq<string>)
    ensures |parts| >= 1
  {
    if s == "" then [""]
    else
      var rest := Split(s[1..], sep);
      if s[0] == sep then [""] + rest
      else [[s[0]] + rest[0]] + rest[1..]
  }

  /** strings.SplitN(s, sep, 2): None when the separator does not occur. */
  function Cut(s: string, sep: char): Option<(string, string)> {
    if s == "" then None
    else if s[0] == sep then Some(("", s[1..]))
    else
      match Cut(s[1..], sep)
      case None => None
      case Some(halves) => Some(([s[0]] + halves.0, halves.1))
  }

  /** A text can be cut if and only if it has the separator. */
  lemma {:induction false} CutNeedsSeparator(s: string, sep: char)
    ensures Cut(s, sep).Some? <==> sep in s
  {
    if s != "" {
      CutNeedsSeparator(s[1..], sep);
      assert s == [s[0]] + s[1..];
    }
  }

  lemma {:induction false} SplitAtFirst(head: string, sep: char, tail: string)
    requires sep !in head
    ensures Split(head, sep) == [head]
    ensures Split(head + [sep] + tail, sep) == [head] + Split(tail, sep)
  {
    if head == "" {
      assert head + [sep] + tail == [sep] + tail;
    } else {
      SplitAtFirst(head[1..], sep, tail);
      assert (head + [sep] + tail)[1..] == head[1..] + [sep] + tail;
      assert head == [head[0]] + head[1..];
    }
  }

  lemma {:induction false} SplitInvertsJoin(parts: seq<string>, sep: char)
    requires parts != []
    requires forall part | part in parts :: sep !in part
    ensures Split(Join(parts, sep), sep) == parts
  {
    assert sep !in parts[0];
    if |parts| == 1 {
      SplitAtFirst(parts[0], sep, "");
    } else {
      SplitInvertsJoin(parts[1..], sep);
      SplitAtFirst(parts[0], sep, Join(parts[1..], sep));
    }
  }

  lemma {:induction false} CutAtFirst(head: string, sep: char, tail: string)
    requires sep !in head
    ensures Cut(head + [sep] + tail, sep) == Some((head, tail))
  {
    if head == "" {
      assert head + [sep] + tail == [sep] + tail;
    } else {
      CutAtFirst(head[1..], sep, tail);
      assert (head + [sep] + tail)[1..] == head[1..] + [sep] + tail;
      assert head == [head[0]] + head[1..];
    }
  }

  /** A joined text has no character that neither the parts nor the separator have. */
  lemma {:induction false} JoinAvoids(parts: seq<string>, sep: char, c: char)
    requires c != sep
    requires forall part | part in parts :: c !in part
    ensures c !in Join(parts, sep)
  {
    if |parts| >= 1 {
      assert c !in parts[0];
      JoinAvoids(parts[1..], sep, c);
    }
  }

  /** The concatenation of what each element of a sequence yields. */
  function FlatMap<T, U>(xs: seq<T>, f: T -> seq<U>): seq<U> {
    if xs == [] then [] else f(xs[0]) + FlatMap(xs[1..], f)
  }

  lemma {:induction false} FlatMapAppend<T, U>(a: seq<T>, b: seq<T>, f: T -> seq<U>)
    ensures FlatMap(a + b, f) == FlatMap(a, f) + FlatMap(b, f)
  {
    if a == [] {
      assert a + b == b;
    } else {
      FlatMapAppend(a[1..], b, f);
      assert (a + b)[1..] == a[1..] + b;
    }
  }

  lemma {:induction false} FlatMapMember<T, U>(xs: seq<T>, f: T -> seq<U>, y: U) returns (x: T)
    requires y in FlatMap(xs, f)
    ensures x in xs && y in f(x)
  {
    if y in f(xs[0]) {
      x := xs[0];
    } else {
      x := FlatMapMember(xs[1..], f, y);
    }
  }

  lemma FlatMapOne<T, U>(x: T, f: T -> seq<U>)
    ensures FlatMap([x], f) == f(x)
  {
    assert [x][1..] == [];
  }

  lemma FlatMapStep<T, U>(xs: seq<T>, f: T -> seq<U>)
    requires xs != []
    ensures FlatMap([xs[0]], f) == f(xs[0])
    ensures FlatMap(xs, f) == FlatMap([xs[0]], f) + FlatMap(xs[1..], f)
  {
    FlatMapOne(xs[0], f);
  }

  lemma ConcatAssociates<T>(a: seq<T>, b: seq<T>, c: seq<T>)
    ensures a + (b + c) == a + b + c
  {
  }
}
