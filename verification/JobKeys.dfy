/** The text keys of package `utils` that name jobs and nodes. */
module JobKeys {
  import opened Results
  import opened Text

  /** `name(id)`. */
  function FormatJobToString(name: string, id: Int64): string {
    name + "(" + Itoa(id) + ")"
  }

  function GetJobNameAndIDFromFormatString(str: string): Option<(string, Int64)> {
    var splitString := Split(str, '(');
    if |splitString| != 2 then None
    else
      match Atoi(TrimRight(splitString[1], ')'))
      case None => None
      case Some(id) => Some((splitString[0], id))
  }

  /** `name/id`, the key of the executor's cancel map. */
  function CancelKey(name: string, id: Int64): string {
    name + "/" + Itoa(id)
  }

  function GetNodeKey(name: string, address: string): string {
    name + "@" + address
  }

  lemma ItoaHas(id: int, c: char)
    requires !IsDigit(c) && c != '-'
    ensures c !in Itoa(id)
  {
    forall i | 0 <= i < |Itoa(id)| ensures Itoa(id)[i] != c {
      ItoaCharacters(id, i);
    }
  }

  /** Different jobs have different keys, whatever their names contain. */
  lemma FormatIsInjective(m: string, i: Int64, n: string, j: Int64)
    requires FormatJobToString(m, i) == FormatJobToString(n, j)
    ensures m == n && i == j
  {
    ItoaHas(i, '(');
    ItoaHas(j, '(');
    assert FormatJobToString(m, i) == m + ['('] + (Itoa(i) + ")");
    assert FormatJobToString(n, j) == n + ['('] + (Itoa(j) + ")");
    LastSeparatorDetermines(m, Itoa(i) + ")", n, Itoa(j) + ")", '(');
    assert Itoa(i) == (Itoa(i) + ")")[..|Itoa(i) + ")"| - 1] == Itoa(j);
    ItoaInjective(i, j);
  }

  lemma CancelKeyIsInjective(m: string, i: Int64, n: string, j: Int64)
    requires CancelKey(m, i) == CancelKey(n, j)
    ensures m == n && i == j
  {
    ItoaHas(i, '/');
    ItoaHas(j, '/');
    LastSeparatorDetermines(m, Itoa(i), n, Itoa(j), '/');
    ItoaInjective(i, j);
  }

  /** A job name is the cancel key of a job only if it contains a slash. */
  lemma CancelKeyHasSlash(n: string, j: Int64)
    ensures '/' in CancelKey(n, j)
  {
    assert CancelKey(n, j)[|n|] == '/';
  }

  /** A formatted key is decoded to the job it was made from exactly when the name has no '(';
      otherwise it is rejected. */
  lemma DecodeFormatted(name: string, id: Int64)
    ensures GetJobNameAndIDFromFormatString(FormatJobToString(name, id))
            == if '(' in name then None else Some((name, id))
  {
    hide Split, Itoa, TrimRight, Atoi;
    var tail := Itoa(id) + ")";
    assert FormatJobToString(name, id) == name + ['('] + tail;
    ItoaHas(id, '(');
    SplitWhole(tail, '(');
    if '(' in name {
      var a, b := FirstSeparator(name, '(');
      assert name + ['('] + tail == a + ['('] + (b + ['('] + tail);
      SplitFirst(a, '(', b + ['('] + tail);
      SplitAtLeastTwo(b, tail);
    } else {
      SplitFirst(name, '(', tail);
      TrimIdTail(id);
      AtoiItoa(id);
    }
  }

  lemma TrimIdTail(id: Int64)
    ensures TrimRight(Itoa(id) + ")", ')') == Itoa(id)
  {
    var tail := Itoa(id) + ")";
    ItoaHas(id, ')');
    assert tail[..|tail| - 1] == Itoa(id);
    assert TrimRight(Itoa(id), ')') == Itoa(id);
  }

  lemma {:induction false} SplitAtLeastTwo(b: string, tail: string)
    ensures |Split(b + ['('] + tail, '(')| >= 2
  {
    var s := b + ['('] + tail;
    assert '(' in s by { assert s[|b|] == '('; }
    var x, y := FirstSeparator(s, '(');
    SplitFirst(x, '(', y);
  }

  /** Two nodes share a key exactly when they are the same, or one name is the other with a part of the other's
      address behind an '@'. */
  lemma NodeKeysCollideIff(m: string, a: string, n: string, b: string)
    ensures GetNodeKey(m, a) == GetNodeKey(n, b) <==> (m == n && a == b) || Shifted(m, a, n, b) || Shifted(n, b, m, a)
  {
    if GetNodeKey(m, a) == GetNodeKey(n, b) {
      if |m| <= |n| { SharedKey(m, a, n, b); } else { SharedKey(n, b, m, a); }
    }
    if Shifted(m, a, n, b) { ShiftedSharesKey(m, a, n, b); }
    if Shifted(n, b, m, a) { ShiftedSharesKey(n, b, m, a); }
  }

  ghost predicate Shifted(m: string, a: string, n: string, b: string) {
    exists x: string :: n == GetNodeKey(m, x) && a == GetNodeKey(x, b)
  }

  lemma ShiftedSharesKey(m: string, a: string, n: string, b: string)
    requires Shifted(m, a, n, b)
    ensures GetNodeKey(m, a) == GetNodeKey(n, b)
  {
    var x :| n == GetNodeKey(m, x) && a == GetNodeKey(x, b);
    assert m + "@" + (x + "@" + b) == (m + "@" + x) + "@" + b;
  }

  lemma SharedKey(m: string, a: string, n: string, b: string)
    requires GetNodeKey(m, a) == GetNodeKey(n, b) && |m| <= |n|
    ensures (m == n && a == b) || Shifted(m, a, n, b)
  {
    var key := GetNodeKey(m, a);
    assert m == key[..|m|] && a == key[|m| + 1..] && n == key[..|n|] && b == key[|n| + 1..];
    if |m| < |n| {
      var x := n[|m| + 1..];
      assert key[|m|] == '@' && key[|n|] == '@';
      assert n == m + "@" + x && a == x + "@" + b;
      assert n == GetNodeKey(m, x) && a == GetNodeKey(x, b);
    }
  }

  /** Node keys are only unambiguous as long as addresses contain no '@'. */
  lemma NodeKeyDeterminesNode(m: string, a: string, n: string, b: string)
    requires '@' !in a && '@' !in b
    ensures GetNodeKey(m, a) == GetNodeKey(n, b) <==> m == n && a == b
  {
    if GetNodeKey(m, a) == GetNodeKey(n, b) {
      LastSeparatorDetermines(m, a, n, b, '@');
    }
  }
}
