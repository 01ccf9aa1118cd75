/** The suppression list (`getSuppressedSecrets`): the parameter's value,
    or the empty string when it has none, split on every comma. Pieces are
    kept exactly as written (no trimming), so a name is suppressed only when
    it equals one of them character for character. */
module Suppression {
  import opened Wrappers

  const Separator: char := ','

  /** JavaScript's `s.split(',')`: the maximal comma-free runs of `s`, in
      order, including empty ones; the empty string gives [""]. */
  function Split(s: string): (pieces: seq<string>)
    ensures |pieces| >= 1
    ensures forall i :: 0 <= i < |pieces| ==> Separator !in pieces[i]
  {
    if s == [] then [""]
    else if s[0] == Separator then [""] + Split(s[1..])
    else
      var rest := Split(s[1..]);
      [[s[0]] + rest[0]] + rest[1..]
  }

  /** The inverse of Split: the pieces with a comma between each two. */
  function Join(pieces: seq<string>): string
    requires |pieces| >= 1
  {
    if |pieces| == 1 then pieces[0]
    else pieces[0] + [Separator] + Join(pieces[1..])
  }

  /** Splitting loses nothing: joining the pieces gives the value back. */
  lemma {:induction false} JoinSplit(s: string)
    ensures Join(Split(s)) == s
  {
    if s == [] {
    } else if s[0] == Separator {
      JoinSplit(s[1..]);
      assert s == [s[0]] + s[1..];
    } else {
      var rest := Split(s[1..]);
      JoinSplit(s[1..]);
      assert s == [s[0]] + s[1..];
      if |rest| > 1 {
        assert Join(rest) == rest[0] + [Separator] + Join(rest[1..]);
        assert Split(s)[1..] == rest[1..];
      }
    }
  }

  /** A comma-free prefix ends up glued to the first piece of what follows. */
  lemma {:induction false} SplitCommaFreePrefix(a: string, b: string)
    requires Separator !in a
    ensures Split(a + b) == [a + Split(b)[0]] + Split(b)[1..]
  {
    if a != [] {
      var pieces := Split(b);
      assert (a + b)[1..] == a[1..] + b;
      assert a + b != [] && (a + b)[0] == a[0];
      SplitCommaFreePrefix(a[1..], b);
      var rest := Split(a[1..] + b);
      assert rest[0] == a[1..] + pieces[0] && rest[1..] == pieces[1..];
      assert [a[0]] + rest[0] == a + pieces[0];
    } else {
      var pieces := Split(b);
      assert a + b == b && a + pieces[0] == pieces[0];
      assert pieces == [pieces[0]] + pieces[1..];
    }
  }

  /** Splitting the joined names gives the names back, when none of them
      contains a comma. */
  lemma {:induction false} SplitJoin(pieces: seq<string>)
    requires |pieces| >= 1
    requires forall i :: 0 <= i < |pieces| ==> Separator !in pieces[i]
    ensures Split(Join(pieces)) == pieces
  {
    if |pieces| == 1 {
      SplitCommaFreePrefix(pieces[0], "");
      assert pieces[0] + "" == pieces[0];
    } else {
      var tail := Join(pieces[1..]);
      SplitJoin(pieces[1..]);
      assert pieces[0] + [Separator] + tail == pieces[0] + ([Separator] + tail);
      SplitCommaFreePrefix(pieces[0], [Separator] + tail);
      assert ([Separator] + tail)[1..] == tail;
      assert pieces[0] + "" == pieces[0];
      assert pieces == [pieces[0]] + pieces[1..];
    }
  }

  /** `String(response.Parameter?.Value || '').split(',')`: an absent or
      empty value both become the empty string before the split. */
  function SuppressionList(value: Option<string>): (names: seq<string>)
    ensures |names| >= 1
  {
    match value
    case None => Split("")
    case Some(v) => Split(v)
  }

  /** `suppressedSecrets.includes(name)`: exact string membership. */
  predicate IsSuppressed(name: string, names: seq<string>)
  {
    name in names
  }

  /** A missing or empty parameter value suppresses only the empty name. */
  lemma EmptyValueSuppressesOnlyEmptyName(value: Option<string>, name: string)
    requires value == None || value == Some("")
    ensures IsSuppressed(name, SuppressionList(value)) <==> name == ""
  {
    assert SuppressionList(value) == [""];
  }

  /** A value written as comma-separated names suppresses exactly those
      names, and a name that contains a comma is never suppressed. */
  lemma SuppressesExactlyListedNames(names: seq<string>, name: string)
    requires |names| >= 1
    requires forall i :: 0 <= i < |names| ==> Separator !in names[i]
    ensures IsSuppressed(name, SuppressionList(Some(Join(names)))) <==> name in names
  {
    SplitJoin(names);
  }

  /** No trimming: the blank after a comma stays part of the next name, so
      "beta" is not suppressed by the value "alpha, beta". */
  lemma PiecesAreNotTrimmed()
    ensures SuppressionList(Some("alpha, beta")) == ["alpha", " beta"]
    ensures !IsSuppressed("beta", SuppressionList(Some("alpha, beta")))
  {
    SplitJoin(["alpha", " beta"]);
    assert Join(["alpha", " beta"]) == "alpha, beta";
  }
}
