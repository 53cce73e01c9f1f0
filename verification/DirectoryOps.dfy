/** What `yfs_client` and the extent server do with directory text: look a name up, add an entry,
    take one out; and what reading and writing at an offset do to file text. */
module DirectoryOps {
  import opened Bytes
  import opened Options
  import opened Directory

  // ---------------------------------------------------------------------- looking up

  predicate Named(es: seq<Entry>, name: Text) { exists k :: 0 <= k < |es| && es[k].name == name }

  /** What a lookup answers: the number of the first entry of that name. */
  function Found(es: seq<Entry>, name: Text): (r: Option<nat>)
    ensures r.None? <==> !Named(es, name)
  {
    if es == [] then None
    else if es[0].name == name then Some(es[0].inum)
    else IndexStep(es, name); Found(es[1..], name)
  }

  lemma {:induction false} FoundAt(es: seq<Entry>, name: Text, k: nat)
    requires k < |es| && es[k].name == name && forall i :: 0 <= i < k ==> es[i].name != name
    ensures Found(es, name) == Some(es[k].inum)
    decreases k
  {
    if k > 0 { FoundAt(es[1..], name, k - 1); }
  }

  method Lookup(s: Text, name: Text) returns (r: Option<nat>, ghost k: nat)
    requires Closed(s, 0)
    ensures r == Found(List(s, 0), name)
    ensures r.None? <==> !Named(List(s, 0), name)
    ensures r.Some? ==>
      && k < |List(s, 0)| && List(s, 0)[k] == Entry(name, r.value)
      && forall i :: 0 <= i < k ==> List(s, 0)[i].name != name
  {
    var es := Readdir(s);
    k := 0;
    for i := 0 to |es|
      invariant forall j :: 0 <= j < i ==> es[j].name != name
    {
      if es[i].name == name {
        FoundAt(es, name, i);
        return Some(es[i].inum), i;
      }
    }
    return None, 0;
  }

  // ------------------------------------------------------------------------- adding

  function Append(s: Text, name: Text, inum: nat): Text { s + EntryText(Entry(name, inum)) }

  lemma AppendText(es: seq<Entry>, e: Entry)
    ensures Append(DirText(es), e.name, e.inum) == DirText(es + [e])
  {
    DirTextSnoc(es, e);
  }

  // ----------------------------------------------------------------------- taking out

  /** The server's find, find and erase; a name that is nowhere in the text makes erase throw. */
  function Erase(s: Text, name: Text): Option<Text> {
    var a := FindText(s, name, 0);
    if a == -1 then None
    else
      var b := Find(s, SLASH, a);
      if b == -1 then Some(if a == 0 then s else s[..a]) else Some(s[..a] + s[b + 1..])
  }

  function Without(es: seq<Entry>, k: nat): seq<Entry>
    requires k < |es|
  {
    es[..k] + es[k + 1..]
  }

  /** Where the text of entry k starts. */
  function Start(es: seq<Entry>, k: nat): nat
    requires k <= |es|
  {
    if k == 0 then 0 else |EntryText(es[0])| + Start(es[1..], k - 1)
  }

  /** s without the stretch from p to the next '/'. */
  function Cut(s: Text, p: nat): Text {
    var b := Find(s, SLASH, p);
    if b == -1 then s else s[..p] + s[b + 1..]
  }

  predicate Distinct(es: seq<Entry>) {
    forall i, j :: 0 <= i < j < |es| ==> es[i].name != es[j].name && es[i].inum != es[j].inum
  }

  lemma {:induction false} FindShift(pre: Text, s: Text, c: Byte, p: nat)
    requires p <= |s|
    ensures Find(pre + s, c, |pre| + p) == if Find(s, c, p) == -1 then -1 else |pre| + Find(s, c, p)
    decreases |s| - p
  {
    if p < |s| && s[p] != c { FindShift(pre, s, c, p + 1); }
  }

  lemma CutSeq(pre: Text, s: Text, p: nat, b: int)
    requires p <= b < |s| || (b == -1 && p <= |s|)
    ensures b != -1 ==> (pre + s)[..|pre| + p] + (pre + s)[|pre| + b + 1..] == pre + (s[..p] + s[b + 1..])
  {}

  lemma CutShift(pre: Text, s: Text, p: nat)
    requires p <= |s|
    ensures Cut(pre + s, |pre| + p) == pre + Cut(s, p)
  {
    hide Find;
    FindShift(pre, s, SLASH, p);
    CutSeq(pre, s, p, Find(s, SLASH, p));
  }

  lemma StartBound(es: seq<Entry>, k: nat)
    requires k <= |es|
    ensures Start(es, k) <= |DirText(es)|
  {}

  /** Cutting at the start of an entry takes out that entry. */
  lemma {:induction false} CutOwn(es: seq<Entry>, k: nat)
    requires Clean(es) && k < |es|
    ensures Start(es, k) < |DirText(es)| && Find(DirText(es), SLASH, Start(es, k)) != -1
    ensures Cut(DirText(es), Start(es, k)) == DirText(Without(es, k))
    decreases k
  {
    hide Find, EntryText, Cut;
    if k == 0 {
      CutHead(es);
    } else {
      var e, rest, p := EntryText(es[0]), DirText(es[1..]), Start(es[1..], k - 1);
      CutOwn(es[1..], k - 1);
      CutShift(e, rest, p);
      FindShift(e, rest, SLASH, p);
      assert Without(es, k)[0] == es[0] && Without(es, k)[1..] == Without(es[1..], k - 1);
    }
  }

  lemma CutHead(es: seq<Entry>)
    requires Clean(es) && es != []
    ensures 0 < |DirText(es)| && Find(DirText(es), SLASH, 0) != -1
    ensures Cut(DirText(es), 0) == DirText(Without(es, 0))
  {
    hide Find, Cut, Stem, Digits;
    CutSlash(es, 0);
    assert Stem(es[0])[..0] == [] && Without(es, 0) == es[1..];
  }

  /** Texts that agree up to their first '/' agree before and after it. */
  lemma SplitAtSlash(x: Text, r: Text, y: Text, s: Text)
    requires SLASH !in x && SLASH !in y && x + [SLASH] + r == y + [SLASH] + s
    ensures x == y && r == s
  {
    var a, b := x + [SLASH] + r, y + [SLASH] + s;
    FindIs(a, SLASH, 0, |x|);
    FindIs(b, SLASH, 0, |y|);
    assert a[..|x|] == x && b[..|y|] == y;
    assert a[|x| + 1..] == r && b[|y| + 1..] == s;
  }

  lemma OneLast(a: Text, i: nat, j: nat)
    requires i < |a| && j < |a| && a[i] == a[j] == COLON
    requires forall k :: i < k < |a| ==> a[k] != COLON
    requires forall k :: j < k < |a| ==> a[k] != COLON
    ensures i == j
  {}

  lemma SplitAtColon(x: Text, r: Text, y: Text, s: Text)
    requires COLON !in r && COLON !in s && x + [COLON] + r == y + [COLON] + s
    ensures x == y && r == s
  {
    var a, b := x + [COLON] + r, y + [COLON] + s;
    assert forall k :: |x| < k < |a| ==> a[k] == r[k - |x| - 1];
    assert forall k :: |y| < k < |b| ==> b[k] == s[k - |y| - 1];
    OneLast(a, |x|, |y|);
    assert a[..|x|] == x && b[..|y|] == y;
    assert a[|x| + 1..] == r && b[|y| + 1..] == s;
  }

  /** An entry before its '/'. */
  function Stem(e: Entry): Text { e.name + [COLON] + Digits(e.inum) }

  lemma StemHasNoSlash(e: Entry)
    requires CleanName(e.name)
    ensures SLASH !in Stem(e) && EntryText(e) == Stem(e) + [SLASH] && COLON !in Digits(e.inum)
  {}

  lemma DifferentTails(x: Text, e: Entry, f: Entry)
    requires Stem(e) == x + Stem(f) && CleanName(e.name) && CleanName(f.name)
    ensures e.inum == f.inum
  {
    StemHasNoSlash(e); StemHasNoSlash(f);
    assert x + Stem(f) == (x + f.name) + [COLON] + Digits(f.inum);
    SplitAtColon(e.name, Digits(e.inum), x + f.name, Digits(f.inum));
    NumberBack(e.inum); NumberBack(f.inum);
  }

  /** What is left when the first entry is cut at p is not the text without entry k. */
  lemma CutFirst(es: seq<Entry>, k: nat, p: nat)
    requires Clean(es) && Distinct(es) && 0 < k < |es| && p < |EntryText(es[0])|
    ensures Cut(DirText(es), p) != DirText(Without(es, k))
  {
    hide Find, Cut, Digits;
    var e, rest := EntryText(es[0]), DirText(es[1..]);
    var x := Stem(es[0])[..p];
    var more := DirText(es[2..]);
    StemHasNoSlash(es[0]); StemHasNoSlash(es[1]);
    CutSlash(es, p);
    assert Cut(DirText(es), p) == (x + Stem(es[1])) + [SLASH] + more by {
      assert es[1..][1..] == es[2..];
      assert rest == Stem(es[1]) + [SLASH] + more;
    }
    var left := Without(es[1..], k - 1);
    assert Without(es, k)[0] == es[0] && Without(es, k)[1..] == left;
    assert DirText(Without(es, k)) == Stem(es[0]) + [SLASH] + DirText(left);
    if Cut(DirText(es), p) == DirText(Without(es, k)) {
      SplitAtSlash(x + Stem(es[1]), more, Stem(es[0]), DirText(left));
      DifferentTails(x, es[0], es[1]);
    }
  }

  lemma CutSlash(es: seq<Entry>, p: nat)
    requires Clean(es) && es != [] && p < |EntryText(es[0])|
    ensures Find(DirText(es), SLASH, p) == |Stem(es[0])|
    ensures Cut(DirText(es), p) == Stem(es[0])[..p] + DirText(es[1..])
  {
    var s, n := DirText(es), |Stem(es[0])|;
    StemHasNoSlash(es[0]);
    assert s == Stem(es[0]) + [SLASH] + DirText(es[1..]);
    assert s[n] == SLASH && forall k :: p <= k < n ==> s[k] == Stem(es[0])[k];
    FindIs(s, SLASH, p, n);
    assert s[..p] == Stem(es[0])[..p] && s[n + 1..] == DirText(es[1..]);
  }

  lemma Cancel(e: Text, a: Text, b: Text)
    ensures e + a == e + b ==> a == b
  {
    assert a == (e + a)[|e|..] && b == (e + b)[|e|..];
  }

  lemma {:induction false} CutEarlier(es: seq<Entry>, k: nat, p: nat)
    requires Clean(es) && Distinct(es) && k < |es| && p < Start(es, k)
    ensures Cut(DirText(es), p) != DirText(Without(es, k))
    decreases k
  {
    hide Cut, EntryText;
    var e, rest := EntryText(es[0]), DirText(es[1..]);
    if p < |e| {
      CutFirst(es, k, p);
    } else {
      CutEarlier(es[1..], k - 1, p - |e|);
      StartBound(es[1..], k - 1);
      CutShift(e, rest, p - |e|);
      assert Without(es, k)[0] == es[0] && Without(es, k)[1..] == Without(es[1..], k - 1);
      Cancel(e, Cut(rest, p - |e|), DirText(Without(es[1..], k - 1)));
    }
  }

  lemma {:induction false} OwnMatch(es: seq<Entry>, k: nat)
    requires k < |es|
    ensures MatchAt(DirText(es), es[k].name, Start(es, k))
    decreases k
  {
    var e, rest := EntryText(es[0]), DirText(es[1..]);
    if k == 0 {
      assert DirText(es)[..|es[0].name|] == es[0].name;
    } else {
      OwnMatch(es[1..], k - 1);
      var p, n := Start(es[1..], k - 1), |es[k].name|;
      assert DirText(es)[|e| + p..|e| + p + n] == rest[p..p + n];
    }
  }

  /** `remove` takes out exactly the entry of that name if and only if the first place the name
      occurs in the text is the start of that entry. */
  lemma EraseExactly(es: seq<Entry>, k: nat)
    requires Clean(es) && Distinct(es) && k < |es|
    ensures Erase(DirText(es), es[k].name) == Some(DirText(Without(es, k)))
       <==> FindText(DirText(es), es[k].name, 0) == Start(es, k)
  {
    hide Find, FindText, DirText, Start;
    var s, a := DirText(es), FindText(DirText(es), es[k].name, 0);
    OwnMatch(es, k);
    CutOwn(es, k);
    if a != Start(es, k) {
      assert 0 <= a < Start(es, k);
      CutEarlier(es, k, a);
      SlashAhead(s, a, Start(es, k));
    }
  }

  lemma SlashAhead(s: Text, a: nat, b: nat)
    requires a <= b && Find(s, SLASH, b) != -1
    ensures Find(s, SLASH, a) != -1
  {}

  // --------------------------------------------- the condition on names and numbers

  ghost predicate Within(t: Text, u: Text) { exists i: nat :: MatchAt(u, t, i) }

  /** The name occurs in the name or in the printed number of an entry. */
  ghost predicate Hit(t: Text, e: Entry) { Within(t, e.name) || Within(t, Digits(e.inum)) }

  /** A clean text that occurs in an entry does not reach over its separators. */
  lemma MatchInEntry(e: Entry, rest: Text, t: Text, p: nat)
    requires CleanName(t) && t != [] && p < |EntryText(e)| && MatchAt(EntryText(e) + rest, t, p)
    ensures Hit(t, e)
  {
    hide Digits;
    var s, c := EntryText(e) + rest, |e.name|;
    var f := c + 1 + |Digits(e.inum)|;
    assert s[c] == COLON && s[f] == SLASH;
    if p <= c < p + |t| { InMatch(s, t, p, c); }
    if p <= f < p + |t| { InMatch(s, t, p, f); }
    if p + |t| <= c {
      assert e.name[p..p + |t|] == s[p..p + |t|];
      assert MatchAt(e.name, t, p);
    } else {
      assert Digits(e.inum)[p - c - 1..p - c - 1 + |t|] == s[p..p + |t|];
      assert MatchAt(Digits(e.inum), t, p - c - 1);
    }
  }

  lemma InMatch(s: Text, t: Text, p: nat, x: nat)
    requires MatchAt(s, t, p) && p <= x < p + |t|
    ensures s[x] in t
  {
    assert s[p..p + |t|][x - p] == s[x];
  }

  lemma HitMatches(e: Entry, rest: Text, t: Text) returns (p: nat)
    requires Hit(t, e)
    ensures p < |EntryText(e)| && MatchAt(EntryText(e) + rest, t, p)
  {
    hide Digits;
    var s, c := EntryText(e) + rest, |e.name|;
    if Within(t, e.name) {
      p :| MatchAt(e.name, t, p);
      assert s[p..p + |t|] == e.name[p..p + |t|];
    } else {
      var i: nat :| MatchAt(Digits(e.inum), t, i);
      p := c + 1 + i;
      assert s[p..p + |t|] == Digits(e.inum)[i..i + |t|];
    }
  }

  lemma MatchShift(pre: Text, s: Text, t: Text, p: nat)
    ensures MatchAt(pre + s, t, |pre| + p) <==> MatchAt(s, t, p)
  {
    if p + |t| <= |s| { assert (pre + s)[|pre| + p..|pre| + p + |t|] == s[p..p + |t|]; }
  }

  ghost predicate MatchBefore(s: Text, t: Text, n: nat) { exists p: nat :: p < n && MatchAt(s, t, p) }
  ghost predicate HitBefore(es: seq<Entry>, k: nat, t: Text)
    requires k <= |es|
  {
    exists j: nat :: j < k && Hit(t, es[j])
  }

  lemma HitSplit(es: seq<Entry>, k: nat, t: Text)
    requires 0 < k <= |es|
    ensures HitBefore(es, k, t) <==> Hit(t, es[0]) || HitBefore(es[1..], k - 1, t)
  {
    hide Hit;
    if HitBefore(es, k, t) {
      var j: nat :| j < k && Hit(t, es[j]);
      if j > 0 { var i: nat := j - 1; assert Hit(t, es[1..][i]); }
    }
    if HitBefore(es[1..], k - 1, t) {
      var j: nat :| j < k - 1 && Hit(t, es[1..][j]);
      var i: nat := j + 1;
      assert Hit(t, es[i]);
    }
  }

  lemma MatchSplit(e: Entry, rest: Text, t: Text, n: nat)
    requires CleanName(t) && t != []
    ensures MatchBefore(EntryText(e) + rest, t, |EntryText(e)| + n) <==> Hit(t, e) || MatchBefore(rest, t, n)
  {
    hide MatchAt, Hit, EntryText;
    var pre := EntryText(e);
    if MatchBefore(pre + rest, t, |pre| + n) {
      var p: nat :| p < |pre| + n && MatchAt(pre + rest, t, p);
      if p < |pre| {
        MatchInEntry(e, rest, t, p);
      } else {
        var q: nat := p - |pre|;
        MatchShift(pre, rest, t, q);
      }
    }
    if Hit(t, e) { var p := HitMatches(e, rest, t); }
    if MatchBefore(rest, t, n) {
      var p: nat :| p < n && MatchAt(rest, t, p);
      MatchShift(pre, rest, t, p);
      var q: nat := |pre| + p;
      assert MatchAt(pre + rest, t, q);
    }
  }

  /** The name occurs before entry k if and only if an earlier entry is hit. */
  lemma {:induction false} EarlierMatch(es: seq<Entry>, k: nat, t: Text)
    requires k <= |es| && CleanName(t) && t != []
    ensures MatchBefore(DirText(es), t, Start(es, k)) <==> HitBefore(es, k, t)
    decreases k
  {
    hide MatchBefore, Hit, EntryText;
    if k > 0 {
      EarlierMatch(es[1..], k - 1, t);
      MatchSplit(es[0], DirText(es[1..]), t, Start(es[1..], k - 1));
      HitSplit(es, k, t);
    } else {
      NoneBefore(DirText(es), t);
    }
  }

  lemma NoneBefore(s: Text, t: Text)
    ensures !MatchBefore(s, t, 0)
  {}

  /** In terms of the entries: `remove` takes out exactly the named entry if and only if the name
      occurs in no earlier name and in no earlier printed number. */
  lemma EraseByEntries(es: seq<Entry>, k: nat)
    requires Clean(es) && Distinct(es) && k < |es|
    ensures Erase(DirText(es), es[k].name) == Some(DirText(Without(es, k)))
       <==> !HitBefore(es, k, es[k].name)
  {
    hide DirText, Start, Erase, Find, FindText, Hit, MatchAt, HitBefore;
    EraseExactly(es, k);
    if es[k].name == [] { EmptyMatch(es, k); } else { EarlierMatch(es, k, es[k].name); }
    OwnMatch(es, k);
    FirstIs(DirText(es), es[k].name, Start(es, k));
  }

  /** The empty name occurs everywhere. */
  lemma EmptyMatch(es: seq<Entry>, k: nat)
    requires k <= |es|
    ensures MatchBefore(DirText(es), [], Start(es, k)) <==> HitBefore(es, k, [])
  {
    if k > 0 {
      assert MatchAt(DirText(es), [], 0) && MatchAt(es[0].name, [], 0);
      assert Hit([], es[0]);
    }
  }

  lemma FirstIs(s: Text, t: Text, n: nat)
    requires MatchAt(s, t, n)
    ensures FindText(s, t, 0) == n <==> !MatchBefore(s, t, n)
  {
    hide MatchAt, FindText;
    var i := FindText(s, t, 0);
    if i < n { var p: nat := i; assert MatchAt(s, t, p); }
  }

  /** The name of one file can be part of the name of an earlier one: removing "a" from the
      directory of "ba" and "a" leaves "ba" with the number of "a". */
  lemma EraseWrongEntry()
    ensures var es := [Entry([98, 97], 2), Entry([97], 3)];
            && Clean(es) && Distinct(es)
            && Erase(DirText(es), [97]) == Some(DirText([Entry([98, 97], 3)]))
  {
    hide FindText, Find, Digits, Cut;
    var es, left := [Entry([98, 97], 2), Entry([97], 3)], [Entry([98, 97], 3)];
    var s := DirText(es);
    OneEntry(left);
    OneEntry(es[1..]);
    StemHasNoSlash(es[0]);
    assert s[0] == 98 && s[1] == 97;
    assert s[0..1] == [98] && s[1..2] == [97];
    assert !MatchAt(s, [97], 0) && MatchAt(s, [97], 1);
    CutSlash(es, 1);
    assert Erase(s, [97]) == Some(Cut(s, 1)) by { CutIs(s, 1); }
    assert Stem(es[0])[..1] + EntryText(es[1]) == EntryText(left[0]);
  }

  lemma CutIs(s: Text, p: nat)
    requires Find(s, SLASH, p) != -1
    ensures Cut(s, p) == s[..p] + s[Find(s, SLASH, p) + 1..]
  {}

  lemma OneEntry(es: seq<Entry>)
    requires |es| == 1
    ensures DirText(es) == EntryText(es[0])
  {
    assert es[1..] == [];
  }

  // ------------------------------------------------------- a directory over a whole run

  /** What a client does under the lock of the directory: create, mkdir or symlink of a name with
      the number of a fresh inode, or unlink. */
  datatype Op = Make(name: Text, inum: nat) | Drop(name: Text)

  function Step(s: Text, op: Op): Option<Text>
    requires Closed(s, 0)
  {
    match op
    case Make(name, inum) => Some(if Named(List(s, 0), name) then s else Append(s, name, inum))
    case Drop(name) => Erase(s, name)
  }

  function Index(es: seq<Entry>, name: Text): (k: nat)
    ensures k <= |es| && (k < |es| ==> es[k].name == name)
    ensures Named(es, name) ==> k < |es|
  {
    if es == [] || es[0].name == name then 0 else IndexStep(es, name); 1 + Index(es[1..], name)
  }

  lemma IndexStep(es: seq<Entry>, name: Text)
    requires es != [] && es[0].name != name
    ensures Named(es, name) ==> Named(es[1..], name)
  {
    if Named(es, name) {
      var k :| 0 <= k < |es| && es[k].name == name;
      assert es[1..][k - 1].name == name;
    }
  }

  function StepList(es: seq<Entry>, op: Op): seq<Entry> {
    match op
    case Make(name, inum) => if Named(es, name) then es else es + [Entry(name, inum)]
    case Drop(name) => if Index(es, name) < |es| then Without(es, Index(es, name)) else es
  }

  /** The caller's part: clean names, fresh numbers, and an unlinked name whose first occurrence in
      the text starts its own entry. */
  predicate Allowed(es: seq<Entry>, op: Op) {
    match op
    case Make(name, inum) => CleanName(name) && forall k :: 0 <= k < |es| ==> es[k].inum != inum
    case Drop(name) => Named(es, name) && FindText(DirText(es), name, 0) == Start(es, Index(es, name))
  }

  lemma MakeKeeps(es: seq<Entry>, e: Entry)
    requires Clean(es) && CleanName(e.name)
    requires Distinct(es) && !Named(es, e.name) && forall k :: 0 <= k < |es| ==> es[k].inum != e.inum
    ensures Clean(es + [e]) && Distinct(es + [e])
  {}

  lemma DropKeeps(es: seq<Entry>, k: nat)
    requires Clean(es) && Distinct(es) && k < |es|
    ensures Clean(Without(es, k)) && Distinct(Without(es, k))
  {
    assert forall i :: 0 <= i < |Without(es, k)| ==> Without(es, k)[i] == es[if i < k then i else i + 1];
  }

  lemma StepMatches(es: seq<Entry>, op: Op)
    requires Clean(es) && Distinct(es) && Allowed(es, op)
    ensures Closed(DirText(es), 0) && Step(DirText(es), op) == Some(DirText(StepList(es, op)))
    ensures Clean(StepList(es, op)) && Distinct(StepList(es, op))
  {
    hide DirText, Erase, FindText, Start, List, Closed, Append, Clean, Distinct, Index;
    ListBack(es);
    if op.Drop? {
      EraseExactly(es, Index(es, op.name));
      DropKeeps(es, Index(es, op.name));
    } else if !Named(es, op.name) {
      MakeKeeps(es, Entry(op.name, op.inum));
      AppendText(es, Entry(op.name, op.inum));
    }
  }

  predicate RunAllowed(es: seq<Entry>, ops: seq<Op>)
    decreases |ops|
  {
    ops == [] || (Allowed(es, ops[0]) && RunAllowed(StepList(es, ops[0]), ops[1..]))
  }

  function RunList(es: seq<Entry>, ops: seq<Op>): seq<Entry>
    decreases |ops|
  {
    if ops == [] then es else RunList(StepList(es, ops[0]), ops[1..])
  }

  /** None when a text that cannot be listed, or an erase that throws, is met. */
  function Run(s: Text, ops: seq<Op>): Option<Text>
    decreases |ops|
  {
    if ops == [] then Some(s)
    else if !Closed(s, 0) || Step(s, ops[0]).None? then None
    else Run(Step(s, ops[0]).value, ops[1..])
  }

  /** After every run the text lists exactly the entries made and not dropped, in order, and no
      name and no number occurs twice. */
  lemma {:induction false} RunMatches(es: seq<Entry>, ops: seq<Op>)
    requires Clean(es) && Distinct(es) && RunAllowed(es, ops)
    ensures Run(DirText(es), ops) == Some(DirText(RunList(es, ops)))
    ensures Clean(RunList(es, ops)) && Distinct(RunList(es, ops))
    ensures Closed(DirText(RunList(es, ops)), 0) && List(DirText(RunList(es, ops)), 0) == RunList(es, ops)
    decreases |ops|
  {
    if ops == [] {
      ListBack(es);
    } else {
      StepMatches(es, ops[0]);
      RunMatches(StepList(es, ops[0]), ops[1..]);
    }
  }

  // ----------------------------------------------------------- reading and writing at offsets

  /** A read gives the bytes from off on, at most size of them, cut at the end of the file. */
  function ReadAt(buf: Text, size: nat, off: nat): (data: Text)
    ensures |data| == if off > |buf| then 0 else Min(size, |buf| - off)
    ensures forall i :: 0 <= i < |data| ==> data[i] == buf[off + i]
  {
    if off > |buf| then [] else if off + size > |buf| then buf[off..] else buf[off..off + size]
  }

  function Min(a: nat, b: nat): nat { if a < b then a else b }

  /** Byte i of a file after data was written at off: the data, the old bytes, and zeroes between them. */
  function Patched(buf: Text, data: Text, off: nat, i: nat): Byte {
    if off <= i < off + |data| then data[i - off] else if i < |buf| then buf[i] else 0
  }

  /** The whole file after data was written at off. */
  function Overwritten(buf: Text, data: Text, off: nat): (r: Text)
    ensures |r| == if off + |data| > |buf| then off + |data| else |buf|
    ensures forall i :: 0 <= i < |r| ==> r[i] == Patched(buf, data, off, i)
  {
    seq(if off + |data| > |buf| then off + |data| else |buf|, i requires 0 <= i => Patched(buf, data, off, i))
  }

  /** A read at any size and offset after a write gives the patched bytes, cut at the new length. */
  lemma ReadAfterWrite(buf: Text, data: Text, off: nat, size: nat, at: nat, i: nat)
    ensures var r := ReadAt(Overwritten(buf, data, off), size, at);
            var end := if off + |data| > |buf| then off + |data| else |buf|;
            && |r| == (if at > end then 0 else Min(size, end - at))
            && (i < |r| ==> r[i] == Patched(buf, data, off, at + i))
  {}

  /** The holes of `resize` are whatever they are; the loops fill them. */
  method WriteAt(buf: Text, data: Text, off: nat, holes: Text) returns (r: Text)
    requires |holes| >= off + |data|
    ensures |r| == if off + |data| > |buf| then off + |data| else |buf|
    ensures forall i :: 0 <= i < |r| ==> r[i] == Patched(buf, data, off, i)
    ensures ReadAt(r, |data|, off) == data
    ensures r == Overwritten(buf, data, off)
  {
    r := buf;
    if off + |data| > |buf| {
      r := buf + holes[|buf|..off + |data|];
      if off > |buf| {
        var j := |buf|;
        while j < off
          invariant |buf| <= j <= off && |r| == off + |data|
          invariant forall i :: 0 <= i < |buf| ==> r[i] == buf[i]
          invariant forall i :: |buf| <= i < j ==> r[i] == 0
        {
          r := r[j := 0];
          j := j + 1;
        }
      }
    }
    ghost var start := r;
    var i := 0;
    while i < |data|
      invariant 0 <= i <= |data| && |r| == |start|
      invariant forall k :: 0 <= k < |r| && !(off <= k < off + i) ==> r[k] == start[k]
      invariant forall k :: off <= k < off + i ==> r[k] == data[k - off]
    {
      r := r[i + off := data[i]];
      i := i + 1;
    }
  }

}
