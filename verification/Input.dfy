/** What administrators enter: single-line texts, and lists that are read entry by entry
    into different values. */
module Input {
  import opened Dns

  predicate OneLine(text: string) { forall c :: c in text ==> c != '\r' && c != '\n' && c != '\0' }

  /** What reading makes of an entry. */
  datatype Read<T> = Skip | Bad | Good(value: T)

  /** The values of a list, each where it comes first; none if an entry is bad. */
  function Values<S, T(==)>(read: S -> Read<T>, entries: seq<S>): Option<seq<T>> {
    if entries == [] then Some([])
    else
      var n := |entries| - 1;
      var front, last := Values(read, entries[..n]), read(entries[n]);
      if front.None? || last.Bad? then None
      else if last.Skip? || last.value in front.value then front
      else Some(front.value + [last.value])
  }

  predicate NoDuplicates<T(==)>(s: seq<T>) { forall i, j :: 0 <= i < j < |s| ==> s[i] != s[j] }

  ghost predicate SomeReads<S, T>(read: S -> Read<T>, entries: seq<S>, v: T) {
    exists i :: 0 <= i < |entries| && read(entries[i]) == Good(v)
  }

  lemma ReadsOneMore<S, T>(read: S -> Read<T>, entries: seq<S>, v: T)
    requires entries != []
    ensures var n := |entries| - 1;
            SomeReads(read, entries, v) <==> SomeReads(read, entries[..n], v) || read(entries[n]) == Good(v)
  {
    var n := |entries| - 1;
    assert forall i :: 0 <= i < n ==> entries[..n][i] == entries[i];
    if SomeReads(read, entries[..n], v) {
      var i :| 0 <= i < n && read(entries[..n][i]) == Good(v);
      assert read(entries[i]) == Good(v);
    }
  }

  /** A list is read exactly if no entry is bad; then each value that was entered is there
      once, and no other. */
  lemma {:induction false} ValuesMean<S, T>(read: S -> Read<T>, entries: seq<S>)
    ensures Values(read, entries).Some? <==> forall i :: 0 <= i < |entries| ==> !read(entries[i]).Bad?
    ensures Values(read, entries).Some? ==> NoDuplicates(Values(read, entries).value)
    ensures Values(read, entries).Some? ==> |Values(read, entries).value| <= |entries|
    ensures Values(read, entries).Some? ==> forall v :: v in Values(read, entries).value <==> SomeReads(read, entries, v)
  {
    if entries != [] {
      var n := |entries| - 1;
      ValuesMean(read, entries[..n]);
      assert forall i :: 0 <= i < n ==> entries[..n][i] == entries[i];
      forall v | Values(read, entries).Some?
        ensures v in Values(read, entries).value <==> SomeReads(read, entries, v)
      {
        ReadsOneMore(read, entries, v);
      }
    }
  }

  /** Reading on only adds values at the end, so each stands where it was entered first. */
  lemma {:induction false} ValuesGrow<S, T>(read: S -> Read<T>, entries: seq<S>, i: nat)
    requires i <= |entries| && Values(read, entries).Some?
    ensures Values(read, entries[..i]).Some? && Values(read, entries[..i]).value <= Values(read, entries).value
    decreases |entries|
  {
    if i < |entries| {
      assert entries[..|entries| - 1][..i] == entries[..i];
      ValuesGrow(read, entries[..|entries| - 1], i);
    } else {
      assert entries[..i] == entries;
    }
  }

  lemma {:induction false} BadOnward<S, T>(read: S -> Read<T>, entries: seq<S>, i: nat)
    requires i <= |entries| && Values(read, entries[..i]).None?
    ensures Values(read, entries).None?
    decreases |entries|
  {
    if i < |entries| {
      assert entries[..|entries| - 1][..i] == entries[..i];
      BadOnward(read, entries[..|entries| - 1], i);
    } else {
      assert entries[..i] == entries;
    }
  }

  /** Reads a list in order, up to the first bad entry. */
  method ReadAll<S, T(==)>(read: S -> Read<T>, entries: seq<S>) returns (out: Option<seq<T>>)
    ensures out == Values(read, entries)
  {
    var values: seq<T> := [];
    for i := 0 to |entries|
      invariant Values(read, entries[..i]) == Some(values)
    {
      assert entries[..i + 1][..i] == entries[..i];
      match read(entries[i]) {
        case Skip =>
        case Bad =>
          BadOnward(read, entries, i + 1);
          return None;
        case Good(v) =>
          if v !in values {
            values := values + [v];
          }
      }
    }
    assert entries[..|entries|] == entries;
    return Some(values);
  }
}
