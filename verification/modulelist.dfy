/** The domains-and-modules page: one card per domain with its module count,
    and per module a badge with the last segment of its code, the first
    three of its children and a "+N more" note for the rest. */
module ModuleList {
  import opened Types

  /** `s.split(sep)`: the pieces between separators, at least one, empty
      pieces included. */
  function Split(s: string, sep: char): (r: seq<string>)
    ensures |r| >= 1
    ensures forall i :: 0 <= i < |r| ==> sep !in r[i]
    decreases |s|
  {
    if |s| == 0 then [""]
    else
      var rest := Split(s[1..], sep);
      if s[0] == sep then [""] + rest
      else [[s[0]] + rest[0]] + rest[1..]
  }

  /** `parts.join(sep)`. */
  function Join(parts: seq<string>, sep: char): string
    requires |parts| >= 1
  {
    if |parts| == 1 then parts[0] else parts[0] + [sep] + Join(parts[1..], sep)
  }

  /** Joining the pieces gives back the string. */
  lemma {:induction false} JoinSplit(s: string, sep: char)
    ensures Join(Split(s, sep), sep) == s
    decreases |s|
  {
    if |s| > 0 {
      var rest := Split(s[1..], sep);
      JoinSplit(s[1..], sep);
      var r := Split(s, sep);
      if s[0] == sep {
        assert r[0] == "" && r[1..] == rest;
      } else {
        assert r[0] == [s[0]] + rest[0] && r[1..] == rest[1..];
        if |rest| > 1 {
          assert Join(rest, sep) == rest[0] + [sep] + Join(rest[1..], sep);
        }
      }
    }
  }

  lemma {:induction false} SplitPrepend(a: string, b: string, sep: char)
    requires sep !in a
    ensures Split(a + [sep] + b, sep) == [a] + Split(b, sep)
    decreases |a|
  {
    if |a| == 0 {
      assert a + [sep] + b == [sep] + b;
      assert ([sep] + b)[1..] == b;
    } else {
      assert (a + [sep] + b)[1..] == a[1..] + [sep] + b;
      assert (a + [sep] + b)[0] == a[0] && a[0] in a;
      SplitPrepend(a[1..], b, sep);
      var rest := Split(a[1..] + [sep] + b, sep);
      assert rest[0] == a[1..] && rest[1..] == Split(b, sep);
      assert [a[0]] + a[1..] == a;
    }
  }

  lemma {:induction false} SplitWhole(a: string, sep: char)
    requires sep !in a
    ensures Split(a, sep) == [a]
    decreases |a|
  {
    if |a| > 0 {
      assert a[0] in a;
      SplitWhole(a[1..], sep);
      assert [a[0]] + a[1..] == a;
    }
  }

  /** Splitting a join of separator-free pieces gives back the pieces. */
  lemma {:induction false} SplitJoin(parts: seq<string>, sep: char)
    requires |parts| >= 1 && forall i :: 0 <= i < |parts| ==> sep !in parts[i]
    ensures Split(Join(parts, sep), sep) == parts
  {
    if |parts| == 1 {
      SplitWhole(parts[0], sep);
    } else {
      SplitJoin(parts[1..], sep);
      SplitPrepend(parts[0], Join(parts[1..], sep), sep);
    }
  }

  lemma {:induction false} JoinLast(parts: seq<string>, sep: char)
    requires |parts| >= 2
    ensures Join(parts, sep) == Join(parts[..|parts| - 1], sep) + [sep] + parts[|parts| - 1]
  {
    if |parts| > 2 {
      JoinLast(parts[1..], sep);
      assert parts[1..][..|parts| - 2] == parts[..|parts| - 1][1..];
    }
  }

  /** `module.code?.split('.').pop()`: nothing without a code. */
  function Badge(code: Option<string>): Option<string> {
    match code
    case None => None
    case Some(c) => var parts := Split(c, '.'); Some(parts[|parts| - 1])
  }

  /** The badge is the part of the code after its last '.': a suffix of the
      code without any '.', preceded by a '.' unless it is the whole code. */
  lemma BadgeSpec(c: string)
    ensures var b := Badge(Some(c)).value;
      && '.' !in b
      && |b| <= |c| && c[|c| - |b|..] == b
      && (|b| < |c| ==> c[|c| - |b| - 1] == '.')
      && ('.' !in c ==> b == c)
  {
    var parts := Split(c, '.');
    var b := parts[|parts| - 1];
    JoinSplit(c, '.');
    if |parts| >= 2 {
      JoinLast(parts, '.');
      var front := Join(parts[..|parts| - 1], '.');
      assert c == front + ['.'] + b;
      assert c[|c| - |b|..] == b;
      assert c[|c| - |b| - 1] == '.';
    } else {
      assert c == b;
    }
  }

  /** The children shown on a module row. */
  function Preview(children: seq<Node>): (r: seq<Node>)
    ensures |r| == if |children| < 3 then |children| else 3
    ensures r == children[..|r|]
  {
    if |children| <= 3 then children else children[..3]
  }

  /** The "+N more" note: present exactly when the preview leaves children
      out, and then the number left out, so that preview and note together
      account for every child. */
  function MoreNote(children: seq<Node>): (r: Option<nat>)
    ensures r.Some? <==> |Preview(children)| < |children|
    ensures |Preview(children)| + (match r case Some(k) => k case None => 0) == |children|
  {
    if |children| > 3 then Some(|children| - 3) else None
  }
}
