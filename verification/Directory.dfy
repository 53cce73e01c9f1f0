/** Directories as text: each entry is its name, ':', the inode number in decimal and '/'. */
module Directory {
  import opened Bytes
  import opened Options

  const COLON: Byte := 58
  const SLASH: Byte := 47
  const ZERO: Byte := 48

  type Text = seq<Byte>

  datatype Entry = Entry(name: Text, inum: nat)

  // ------------------------------------------------------------------------ numbers

  predicate IsDigit(b: Byte) { ZERO <= b < ZERO + 10 }

  /** `ost << inum`. */
  function Digits(n: nat): (s: Text)
    ensures s != [] && forall i :: 0 <= i < |s| ==> IsDigit(s[i])
  {
    if n < 10 then [ZERO + n] else Digits(n / 10) + [ZERO + n % 10]
  }

  /** `ist >> finum` continued from the value acc: digits up to the first other character. */
  function Number(s: Text, acc: nat): nat {
    if s == [] || !IsDigit(s[0]) then acc else Number(s[1..], acc * 10 + (s[0] as int - ZERO))
  }

  lemma {:induction false} NumberSnoc(s: Text, d: Byte, acc: nat)
    requires IsDigit(d) && forall i :: 0 <= i < |s| ==> IsDigit(s[i])
    ensures Number(s + [d], acc) == Number(s, acc) * 10 + (d as int - ZERO)
    decreases |s|
  {
    if s == [] {
      assert (s + [d])[1..] == [];
    } else {
      assert (s + [d])[1..] == s[1..] + [d];
      NumberSnoc(s[1..], d, acc * 10 + (s[0] as int - ZERO));
    }
  }

  lemma {:induction false} NumberBack(n: nat)
    ensures Number(Digits(n), 0) == n
  {
    if n >= 10 {
      NumberBack(n / 10);
      NumberSnoc(Digits(n / 10), ZERO + n % 10, 0);
    } else {
      assert Digits(n)[1..] == [];
    }
  }

  // ----------------------------------------------------------------------- searching

  /** `buf.find(c, from)`, with -1 for npos. */
  function Find(s: Text, c: Byte, from: nat): (i: int)
    ensures i == -1 || (from <= i < |s| && s[i] == c)
    ensures forall k :: from <= k < (if i == -1 then |s| else i) ==> s[k] != c
    decreases |s| - from
  {
    if from >= |s| then -1 else if s[from] == c then from else Find(s, c, from + 1)
  }

  predicate MatchAt(s: Text, t: Text, i: nat) { i + |t| <= |s| && s[i..i + |t|] == t }

  /** `buf.find(t)` from position from on. */
  function FindText(s: Text, t: Text, from: nat): (i: int)
    ensures i == -1 || (from <= i && MatchAt(s, t, i))
    ensures forall k: nat :: from <= k && (i == -1 || k < i) ==> !MatchAt(s, t, k)
    decreases |s| - from
  {
    if from + |t| > |s| then -1 else if MatchAt(s, t, from) then from else FindText(s, t, from + 1)
  }

  // ------------------------------------------------------------------------ listing

  function EntryText(e: Entry): Text { e.name + [COLON] + Digits(e.inum) + [SLASH] }

  function DirText(es: seq<Entry>): Text {
    if es == [] then [] else EntryText(es[0]) + DirText(es[1..])
  }

  predicate CleanName(n: Text) { COLON !in n && SLASH !in n }

  predicate Clean(es: seq<Entry>) { forall i :: 0 <= i < |es| ==> CleanName(es[i].name) }

  /** Every ':' the cursor meets has a '/' behind it. */
  predicate Closed(s: Text, from: nat)
    decreases |s| - from
  {
    from >= |s| || Find(s, COLON, from) == -1
    || (Find(s, SLASH, Find(s, COLON, from) + 1) != -1 && Closed(s, Find(s, SLASH, Find(s, COLON, from) + 1) + 1))
  }

  function List(s: Text, from: nat): seq<Entry>
    requires from <= |s| && Closed(s, from)
    decreases |s| - from
  {
    var e := Find(s, COLON, from);
    if e == -1 then []
    else
      var f := Find(s, SLASH, e + 1);
      [Entry(s[from..e], Number(s[e + 1..f], 0))] + List(s, f + 1)
  }

  lemma ListTurn(s: Text, from: nat)
    requires from <= |s| && Closed(s, from)
    ensures var e := Find(s, COLON, from);
            var f := Find(s, SLASH, e + 1);
            if e == -1 then List(s, from) == []
            else f > e && Closed(s, f + 1) && List(s, from) == [Entry(s[from..e], Number(s[e + 1..f], 0))] + List(s, f + 1)
  {
    hide Number, Find;
  }

  method Readdir(s: Text) returns (es: seq<Entry>)
    requires Closed(s, 0)
    ensures es == List(s, 0)
  {
    hide List, Closed, Number, Find;
    es := [];
    var start: nat, end := 0, Find(s, COLON, 0);
    ListTurn(s, 0);
    while end != -1
      invariant start <= |s| && Closed(s, start) && end == Find(s, COLON, start)
      invariant es + List(s, start) == List(s, 0)
      decreases |s| - start
    {
      ListTurn(s, start);
      var close := Find(s, SLASH, end + 1);
      es := es + [Entry(s[start..end], Number(s[end + 1..close], 0))];
      start := close + 1;
      end := Find(s, COLON, start);
    }
    ListTurn(s, start);
  }

  lemma FindIs(s: Text, c: Byte, from: nat, i: nat)
    requires from <= i < |s| && s[i] == c && forall k :: from <= k < i ==> s[k] != c
    ensures Find(s, c, from) == i
  {}

  /** Where the cursor finds the separators of an entry, anywhere in a text: a '/' in the name does no harm. */
  lemma EntryRead(pre: Text, e: Entry, post: Text)
    requires COLON !in e.name
    ensures var s := pre + EntryText(e) + post;
            var c := |pre| + |e.name|;
            var f := c + 1 + |Digits(e.inum)|;
            && Find(s, COLON, |pre|) == c && Find(s, SLASH, c + 1) == f
            && s[|pre|..c] == e.name && s[c + 1..f] == Digits(e.inum) && f + 1 == |pre + EntryText(e)|
  {
    var s := pre + EntryText(e) + post;
    var c := |pre| + |e.name|;
    var f := c + 1 + |Digits(e.inum)|;
    assert s[|pre|..c] == e.name;
    assert s[c + 1..f] == Digits(e.inum);
    assert forall k :: |pre| <= k < c ==> s[k] == e.name[k - |pre|];
    assert forall k :: c < k < f ==> s[k] == Digits(e.inum)[k - c - 1];
    assert s[c] == COLON && s[f] == SLASH;
    FindIs(s, COLON, |pre|, c);
    FindIs(s, SLASH, c + 1, f);
  }

  /** In an entry with a clean name the '/' is the first one. */
  lemma EntryFound(pre: Text, e: Entry, post: Text)
    requires CleanName(e.name)
    ensures var s := pre + EntryText(e) + post;
            var c := |pre| + |e.name|;
            var f := c + 1 + |Digits(e.inum)|;
            && Find(s, COLON, |pre|) == c && Find(s, SLASH, c + 1) == f && Find(s, SLASH, |pre|) == f
            && s[|pre|..c] == e.name && s[c + 1..f] == Digits(e.inum) && f + 1 == |pre + EntryText(e)|
  {
    hide Digits, Find, EntryText;
    EntryRead(pre, e, post);
    var s := pre + EntryText(e) + post;
    var c := |pre| + |e.name|;
    forall k | |pre| <= k <= c ensures s[k] != SLASH { if k < c { assert s[k] == s[|pre|..c][k - |pre|]; } }
    FindIs(s, SLASH, |pre|, c + 1 + |Digits(e.inum)|);
  }

  lemma ListEnd(s: Text)
    ensures Closed(s, |s|) && List(s, |s|) == []
  {}

  lemma ListEntry(s: Text, from: nat, e: Entry, next: nat)
    requires from <= next <= |s| && Closed(s, next)
    requires var c, f := Find(s, COLON, from), next - 1;
             from <= c && f == Find(s, SLASH, c + 1) && s[from..c] == e.name && Number(s[c + 1..f], 0) == e.inum
    ensures Closed(s, from) && List(s, from) == [e] + List(s, next)
  {
    hide Number, Find;
  }

  predicate NoColon(es: seq<Entry>) { forall i :: 0 <= i < |es| ==> COLON !in es[i].name }

  lemma {:induction false} ListBackFrom(pre: Text, es: seq<Entry>)
    requires NoColon(es)
    ensures Closed(pre + DirText(es), |pre|) && List(pre + DirText(es), |pre|) == es
    decreases |es|
  {
    hide List, Closed, Number, Find, EntryText;
    if es == [] {
      assert pre + DirText(es) == pre;
      ListEnd(pre);
    } else {
      var next := pre + EntryText(es[0]);
      assert next + DirText(es[1..]) == pre + DirText(es);
      EntryRead(pre, es[0], DirText(es[1..]));
      ListBackFrom(next, es[1..]);
      NumberBack(es[0].inum);
      ListEntry(pre + DirText(es), |pre|, es[0], |next|);
      assert es == [es[0]] + es[1..];
    }
  }

  lemma ListBack(es: seq<Entry>)
    requires Clean(es)
    ensures Closed(DirText(es), 0) && List(DirText(es), 0) == es
  {
    ListBackFrom([], es);
    assert [] + DirText(es) == DirText(es);
  }

  /** No listed name has a ':'. */
  lemma {:induction false} ListedNames(s: Text, from: nat)
    requires from <= |s| && Closed(s, from)
    ensures NoColon(List(s, from))
    decreases |s| - from
  {
    var e := Find(s, COLON, from);
    if e != -1 {
      var f := Find(s, SLASH, e + 1);
      ListedNames(s, f + 1);
      assert COLON !in s[from..e];
    }
  }

  // ------------------------------------------------------------- where listing ends

  /** One turn of the cursor: none when there is no further ':'. Without a '/' the cursor goes back
      to the front, because the position after npos is 0. */
  function Turn(s: Text, start: nat): Option<nat> {
    var e := Find(s, COLON, start);
    if e == -1 then None else Some(Find(s, SLASH, e + 1) + 1)
  }

  /** The cursor after n turns, if the loop has not ended before. */
  function Turns(s: Text, start: nat, n: nat): Option<nat>
    decreases n
  {
    if n == 0 then Some(start) else match Turn(s, start) case None => None case Some(next) => Turns(s, next, n - 1)
  }

  lemma {:induction false} TurnsAdd(s: Text, start: nat, m: nat, n: nat)
    requires Turns(s, start, m).Some?
    ensures Turns(s, start, m + n) == Turns(s, Turns(s, start, m).value, n)
    decreases m
  {
    hide Turn;
    if m > 0 { TurnsAdd(s, Turn(s, start).value, m - 1, n); }
  }

  lemma {:induction false} ClosedEnds(s: Text, start: nat) returns (n: nat)
    requires start <= |s| && Closed(s, start)
    ensures Turns(s, start, n).None?
    decreases |s| - start
  {
    if Find(s, COLON, start) == -1 {
      n := 1;
    } else {
      n := ClosedEnds(s, Turn(s, start).value);
      n := n + 1;
    }
  }

  lemma {:induction false} OpenReturns(s: Text, start: nat) returns (n: nat)
    requires start <= |s| && !Closed(s, start)
    ensures n > 0 && Turns(s, start, n) == Some(0)
    decreases |s| - start
  {
    hide Find;
    var f := Find(s, SLASH, Find(s, COLON, start) + 1);
    if f == -1 {
      assert Turns(s, 0, 0) == Some(0);
      n := 1;
    } else {
      n := OpenReturns(s, f + 1);
      n := n + 1;
    }
  }

  lemma {:induction false} OpenGoesOn(s: Text, m: nat, n: nat)
    requires m > 0 && Turns(s, 0, m) == Some(0)
    ensures Turns(s, 0, n).Some?
    decreases n
  {
    if n >= m {
      TurnsAdd(s, 0, m, n - m);
      OpenGoesOn(s, m, n - m);
    } else if Turns(s, 0, n).None? {
      TurnsStop(s, 0, n, m);
    }
  }

  lemma {:induction false} TurnsStop(s: Text, start: nat, n: nat, m: nat)
    requires n <= m && Turns(s, start, n).None?
    ensures Turns(s, start, m).None?
    decreases n
  {
    hide Turn;
    if Turn(s, start).Some? { TurnsStop(s, Turn(s, start).value, n - 1, m - 1); }
  }

  /** The loop of `readdir` ends if and only if the text is closed. */
  lemma ListingEndsExactly(s: Text)
    ensures (exists n: nat :: Turns(s, 0, n).None?) <==> Closed(s, 0)
  {
    if Closed(s, 0) {
      var n := ClosedEnds(s, 0);
    } else {
      var m := OpenReturns(s, 0);
      forall n: nat ensures Turns(s, 0, n).Some? { OpenGoesOn(s, m, n); }
    }
  }

  /** Text that ends with an entry is closed, whatever the names in it are. */
  lemma {:induction false} EntryCloses(s: Text, e: Entry, from: nat)
    ensures Closed(s + EntryText(e), from)
    decreases |s + EntryText(e)| - from
  {
    var t := s + EntryText(e);
    assert t[|t| - 1] == SLASH;
    var c := Find(t, COLON, from);
    if from < |t| && c != -1 {
      assert c < |t| - 1;
      EntryCloses(s, e, Find(t, SLASH, c + 1) + 1);
    }
  }

  lemma {:induction false} DirTextSnoc(es: seq<Entry>, e: Entry)
    ensures DirText(es + [e]) == DirText(es) + EntryText(e)
  {
    hide EntryText;
    if es == [] {
      assert ([] + [e])[1..] == [];
    } else {
      assert (es + [e])[1..] == es[1..] + [e] && (es + [e])[0] == es[0];
      DirTextSnoc(es[1..], e);
    }
  }

  /** `readdir` ends on the text of any entries, and reads back exactly the entries that were written
      if and only if no name has a ':'; a '/' in a name does no harm here. */
  lemma ListBackExactly(es: seq<Entry>)
    ensures Closed(DirText(es), 0) && (List(DirText(es), 0) == es <==> NoColon(es))
  {
    hide List, Closed, EntryText;
    if es == [] {
      ListEnd([]);
    } else {
      var last := es[..|es| - 1];
      assert es == last + [es[|es| - 1]];
      DirTextSnoc(last, es[|es| - 1]);
      EntryCloses(DirText(last), es[|es| - 1], 0);
    }
    ListedNames(DirText(es), 0);
    if NoColon(es) {
      ListBackFrom([], es);
      assert [] + DirText(es) == DirText(es);
    }
  }

  /** A file made as "a:b" is listed as "a", with no inode of its own. */
  lemma ColonNameListsShort(a: Byte, b: Byte, inum: nat)
    requires a != COLON && a != SLASH && b != COLON && b != SLASH && !IsDigit(b)
    ensures var s := DirText([Entry([a, COLON, b], inum)]);
            Closed(s, 0) && List(s, 0) == [Entry([a], 0)]
  {
    var e := Entry([a, COLON, b], inum);
    var s := DirText([e]);
    assert [e][1..] == [] && s == EntryText(e) + [] == EntryText(e);
    assert |s| == 5 + |Digits(inum)|;
    assert s[0] == a && s[1] == COLON && s[2] == b && s[3] == COLON && s[|s| - 1] == SLASH;
    assert forall k :: 4 <= k < |s| - 1 ==> s[k] == Digits(inum)[k - 4];
    FindIs(s, COLON, 0, 1);
    FindIs(s, SLASH, 2, |s| - 1);
    assert s[0..1] == [a] && Number(s[2..|s| - 1], 0) == 0;
    ListEnd(s);
    ListEntry(s, 0, Entry([a], 0), |s|);
  }
}
