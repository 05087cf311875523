/** The digest half of summarizer.py: grouping classified emails by
    normalised subject (`group_by_subject`), ordering the groups by score
    and count, rendering each priority section (`_format_block`) and the
    final text (`build_summary`). */
module Digest {
  import opened Wrappers
  import opened Text
  import opened Lists
  import opened Classifier

  // ---------------------------------------------------------------------
  // Subject keys
  // ---------------------------------------------------------------------

  /** `re.sub(r"\s+", " ", _norm(subject))`: the key emails are grouped
      under. */
  function SubjectKey(subject: string): string {
    CollapseWs(Norm(subject))
  }

  /** A key is the subject stripped, with ASCII letters lower-cased and
      every whitespace run turned into one space; it is empty exactly for a
      blank subject. */
  lemma SubjectKeyNormalForm(subject: string)
    ensures var k := SubjectKey(subject);
      && (k == [] <==> AllWs(subject))
      && (k != [] ==> !IsWs(k[0]) && !IsWs(k[|k| - 1]))
      && (forall i :: 0 <= i < |k| && IsWs(k[i]) ==> k[i] == ' ')
      && NoDoubleWs(k)
      && NoUpperAscii(k)
  {
    CollapseKeepsCase(Norm(subject));
  }

  /** Collapsing whitespace introduces no upper-case letter. */
  lemma {:induction false} CollapseKeepsCase(s: string)
    requires NoUpperAscii(s)
    ensures NoUpperAscii(CollapseWs(s))
    decreases |s|
  {
    if s != [] {
      var n := if IsWs(s[0]) then LeadWs(s) else 1;
      var head := if IsWs(s[0]) then " " else [s[0]];
      NoUpperSuffix(s, n);
      CollapseKeepsCase(s[n..]);
      assert CollapseWs(s) == head + CollapseWs(s[n..]);
      NoUpperConcat(head, CollapseWs(s[n..]));
    }
  }

  lemma NoUpperSuffix(s: string, n: nat)
    requires n <= |s| && NoUpperAscii(s)
    ensures NoUpperAscii(s[n..])
  {
    forall k | 0 <= k < |s| - n
      ensures !('A' <= s[n..][k] <= 'Z')
    {
      assert s[n..][k] == s[n + k];
    }
  }

  lemma NoUpperConcat(a: string, b: string)
    requires NoUpperAscii(a) && NoUpperAscii(b)
    ensures NoUpperAscii(a + b)
  {
    forall k | 0 <= k < |a + b|
      ensures !('A' <= (a + b)[k] <= 'Z')
    {
      if k < |a| {
        assert (a + b)[k] == a[k];
      } else {
        assert (a + b)[k] == b[k - |a|];
      }
    }
  }

  /** A string whose only whitespace is single spaces is its own collapse. */
  lemma {:induction false} CollapseNormal(s: string)
    requires forall i :: 0 <= i < |s| && IsWs(s[i]) ==> s[i] == ' '
    requires NoDoubleWs(s)
    ensures CollapseWs(s) == s
    decreases |s|
  {
    if s != [] {
      var t := s[1..];
      NormalTail(s);
      CollapseNormal(t);
      if IsWs(s[0]) {
        assert LeadWs(s) == 1;
        assert s == " " + t;
      } else {
        assert s == [s[0]] + t;
      }
    }
  }

  /** The tail of such a string is again of that kind, and a leading space
      is followed by something visible. */
  lemma NormalTail(s: string)
    requires s != []
    requires forall i :: 0 <= i < |s| && IsWs(s[i]) ==> s[i] == ' '
    requires NoDoubleWs(s)
    ensures var t := s[1..];
      && (forall i :: 0 <= i < |t| && IsWs(t[i]) ==> t[i] == ' ')
      && NoDoubleWs(t)
      && (IsWs(s[0]) ==> s[0] == ' ' && (t == [] || !IsWs(t[0])))
  {
    var t := s[1..];
    forall i | 0 <= i < |t| ensures t[i] == s[i + 1] {}
  }

  lemma LowerNoUpper(s: string)
    requires NoUpperAscii(s)
    ensures Lower(s) == s
  {
  }

  /** A key is already in normal form: normalising it again gives it back,
      so two subjects fall in the same group exactly when their keys are
      equal. */
  lemma SubjectKeyIdempotent(subject: string)
    ensures SubjectKey(SubjectKey(subject)) == SubjectKey(subject)
  {
    var k := SubjectKey(subject);
    SubjectKeyNormalForm(subject);
    StripUnpadded(k);
    LowerNoUpper(k);
    CollapseNormal(k);
  }

  lemma {:induction false} LeadWsUpper(s: string)
    ensures LeadWs(Upper(s)) == LeadWs(s)
  {
    if s != [] {
      LeadWsUpper(s[1..]);
      assert Upper(s)[1..] == Upper(s[1..]);
    }
  }

  lemma {:induction false} TrailWsUpper(s: string)
    ensures TrailWs(Upper(s)) == TrailWs(s)
  {
    if s != [] {
      var init := s[..|s| - 1];
      var u := Upper(s);
      TrailWsUpper(init);
      assert u[..|s| - 1] == Upper(init);
      assert IsWs(u[|s| - 1]) == IsWs(s[|s| - 1]);
    }
  }

  lemma UpperSlice(s: string, a: nat, b: nat)
    requires a <= b <= |s|
    ensures Upper(s)[a..b] == Upper(s[a..b])
  {
  }

  /** Upper-casing commutes with stripping: it never turns whitespace into
      a visible character or back. */
  lemma StripUpper(s: string)
    ensures Strip(Upper(s)) == Upper(Strip(s))
  {
    var n := LeadWs(s);
    var m := |s| - n - TrailWs(s[n..]);
    StripBounds(s, n, m);
    StripUpperBounds(s, n, m);
    UpperSlice(s, n, n + m);
  }

  /** Upper-casing keeps both whitespace runs, so `strip` cuts the
      upper-cased string at the same places. */
  lemma StripUpperBounds(s: string, n: nat, m: nat)
    requires n == LeadWs(s) && n + m <= |s| && m == |s| - n - TrailWs(s[n..])
    ensures Strip(Upper(s)) == Upper(s)[n..n + m]
  {
    LeadWsUpper(s);
    TrailWsUpperFrom(s, n);
    StripBounds(Upper(s), n, m);
  }

  lemma TrailWsUpperFrom(s: string, n: nat)
    requires n <= |s|
    ensures TrailWs(Upper(s)[n..]) == TrailWs(s[n..])
  {
    var u := Upper(s);
    UpperSlice(s, n, |s|);
    assert s[n..|s|] == s[n..] && u[n..|s|] == u[n..];
    TrailWsUpper(s[n..]);
  }

  /** `strip` keeps the slice between the two whitespace runs. */
  lemma StripBounds(s: string, n: nat, m: nat)
    requires n == LeadWs(s) && n + m <= |s| && m == |s| - n - TrailWs(s[n..])
    ensures Strip(s) == s[n..n + m]
  {
    assert s[n..][..m] == s[n..n + m];
  }

  lemma LowerUpper(s: string)
    ensures Lower(Upper(s)) == Lower(s)
  {
    var l, m := Lower(Upper(s)), Lower(s);
    forall k | 0 <= k < |s|
      ensures l[k] == m[k]
    {
      var c := s[k];
      if 'a' <= c <= 'z' {
        assert UpperChar(c) == (c as int - 32) as char;
      }
    }
  }

  /** Subjects that differ only in ASCII letter case share a group. */
  lemma SubjectKeyIgnoresCase(subject: string)
    ensures SubjectKey(Upper(subject)) == SubjectKey(subject)
  {
    StripUpper(subject);
    LowerUpper(Strip(subject));
  }

  // ---------------------------------------------------------------------
  // group_by_subject
  // ---------------------------------------------------------------------

  /** A group: its representative email and how many emails it holds. */
  datatype Group = Group(rep: ClassifiedEmail, count: nat)

  /** The dict `group_by_subject` returns: `order` is its key insertion
      order, `groups` its contents. */
  datatype Grouped = Grouped(order: seq<string>, groups: map<string, Group>)

  predicate ValidGrouped(g: Grouped) {
    NoDup(g.order)
    && (forall k :: k in g.order ==> k in g.groups)
    && (forall k :: k in g.groups ==> k in g.order)
  }

  /** One iteration of the grouping loop: a new key is appended with count
      1; a known key has its count raised and keeps the earlier
      representative unless the new email scores strictly higher. */
  function AddEmail(g: Grouped, e: ClassifiedEmail, key: string): Grouped {
    if key in g.groups then
      var grp := g.groups[key];
      Grouped(g.order, g.groups[key := Group(if e.score > grp.rep.score then e else grp.rep, grp.count + 1)])
    else
      Grouped(g.order + [key], g.groups[key := Group(e, 1)])
  }

  /** The grouping of `emails` under the subject key function `key`, one
      email at a time in list order; `group_by_subject` uses
      `GroupBy(emails, SubjectKey)`. */
  function GroupBy(emails: seq<ClassifiedEmail>, key: string -> string): (g: Grouped)
    ensures ValidGrouped(g)
    ensures |g.order| <= |emails|
  {
    if emails == [] then Grouped([], map[])
    else
      var prev := GroupBy(emails[..|emails| - 1], key);
      var e := emails[|emails| - 1];
      assert emails == emails[..|emails| - 1] + [e];
      AddEmail(prev, e, key(e.subject))
  }

  /** `group_by_subject`. */
  method GroupBySubject(emails: seq<ClassifiedEmail>) returns (g: Grouped)
    ensures g == GroupBy(emails, SubjectKey)
  {
    var order: seq<string> := [];
    var groups: map<string, Group> := map[];
    for i := 0 to |emails|
      invariant Grouped(order, groups) == GroupBy(emails[..i], SubjectKey)
    {
      GroupByStep(emails, SubjectKey, i);
      order, groups := AddToGroup(order, groups, emails[i], SubjectKey(emails[i].subject));
    }
    assert emails[..|emails|] == emails;
    g := Grouped(order, groups);
  }

  /** One pass of the `group_by_subject` loop body on the dict, held as
      its key order and contents. */
  method AddToGroup(order: seq<string>, groups: map<string, Group>, e: ClassifiedEmail, key: string)
    returns (order': seq<string>, groups': map<string, Group>)
    ensures Grouped(order', groups') == AddEmail(Grouped(order, groups), e, key)
  {
    if key in groups {
      var grp := groups[key];
      if e.score > grp.rep.score {
        groups' := groups[key := Group(e, grp.count + 1)];
      } else {
        groups' := groups[key := Group(grp.rep, grp.count + 1)];
      }
      order' := order;
    } else {
      order' := order + [key];
      groups' := groups[key := Group(e, 1)];
    }
  }

  /** Every email's key has a group, and every group's representative
      carries the group's key. */
  lemma GroupByKeys(emails: seq<ClassifiedEmail>, key: string -> string)
    ensures forall i :: 0 <= i < |emails| ==> key(emails[i].subject) in GroupBy(emails, key).groups
    ensures forall k :: k in GroupBy(emails, key).groups ==> key(GroupBy(emails, key).groups[k].rep.subject) == k
  {
    GroupByRepKeys(emails, key);
    GroupByHasKeys(emails, key);
  }

  lemma {:induction false} GroupByRepKeys(emails: seq<ClassifiedEmail>, key: string -> string)
    ensures forall k :: k in GroupBy(emails, key).groups ==> key(GroupBy(emails, key).groups[k].rep.subject) == k
  {
    if emails != [] {
      var p, e := emails[..|emails| - 1], emails[|emails| - 1];
      GroupByRepKeys(p, key);
      GroupBySnoc(emails, key);
      AddEmailKeys(GroupBy(p, key), e, key);
    }
  }

  lemma {:induction false} GroupByHasKeys(emails: seq<ClassifiedEmail>, key: string -> string)
    ensures forall i :: 0 <= i < |emails| ==> key(emails[i].subject) in GroupBy(emails, key).groups
  {
    if emails != [] {
      var p, e := emails[..|emails| - 1], emails[|emails| - 1];
      GroupByHasKeys(p, key);
      GroupBySnoc(emails, key);
      AddEmailKeeps(GroupBy(p, key), e, key(e.subject));
      KeysGrow(emails, p, e, key, GroupBy(p, key).groups.Keys, GroupBy(emails, key).groups.Keys);
    }
  }

  /** The keys of a prefix, plus the key of the email after it, cover
      every email of the longer list. */
  lemma KeysGrow(emails: seq<ClassifiedEmail>, p: seq<ClassifiedEmail>, e: ClassifiedEmail, key: string -> string,
                  before: set<string>, after: set<string>)
    requires emails != [] && p == emails[..|emails| - 1] && e == emails[|emails| - 1]
    requires forall i :: 0 <= i < |p| ==> key(p[i].subject) in before
    requires after == before + {key(e.subject)}
    ensures forall i :: 0 <= i < |emails| ==> key(emails[i].subject) in after
  {
    forall i | 0 <= i < |emails|
      ensures key(emails[i].subject) in after
    {
      if i < |p| {
        assert emails[i] == p[i];
      }
    }
  }

  /** One grouping step keeps every key and adds the new one. */
  lemma AddEmailKeeps(g: Grouped, e: ClassifiedEmail, k: string)
    ensures AddEmail(g, e, k).groups.Keys == g.groups.Keys + {k}
  {
  }

  /** One grouping step keeps every key, adds the new email's key, and
      keeps each group's representative under its own key. */
  lemma AddEmailKeys(g: Grouped, e: ClassifiedEmail, key: string -> string)
    requires forall k :: k in g.groups ==> key(g.groups[k].rep.subject) == k
    ensures var g' := AddEmail(g, e, key(e.subject));
      && g.groups.Keys <= g'.groups.Keys
      && key(e.subject) in g'.groups
      && forall k :: k in g'.groups ==> key(g'.groups[k].rep.subject) == k
  {
  }

  lemma GroupBySnoc(emails: seq<ClassifiedEmail>, key: string -> string)
    requires emails != []
    ensures GroupBy(emails, key)
            == AddEmail(GroupBy(emails[..|emails| - 1], key), emails[|emails| - 1], key(emails[|emails| - 1].subject))
  {
  }

  lemma GroupByStep(emails: seq<ClassifiedEmail>, key: string -> string, i: nat)
    requires i < |emails|
    ensures GroupBy(emails[..i + 1], key) == AddEmail(GroupBy(emails[..i], key), emails[i], key(emails[i].subject))
  {
    assert emails[..i + 1][..i] == emails[..i];
  }

  /** How many of `emails` have subject key `k`. */
  function KeyCount(emails: seq<ClassifiedEmail>, key: string -> string, k: string): nat {
    if emails == [] then 0
    else KeyCount(emails[..|emails| - 1], key, k) + (if key(emails[|emails| - 1].subject) == k then 1 else 0)
  }

  /** Every group counts exactly the emails with its key, and there is a
      group for a key exactly when some email has it. */
  lemma {:induction false} GroupCounts(emails: seq<ClassifiedEmail>, key: string -> string, k: string)
    ensures k in GroupBy(emails, key).groups <==> KeyCount(emails, key, k) > 0
    ensures k in GroupBy(emails, key).groups ==> GroupBy(emails, key).groups[k].count == KeyCount(emails, key, k)
  {
    if emails != [] {
      GroupCounts(emails[..|emails| - 1], key, k);
    }
  }

  /** No email in a group scores higher than its representative. */
  lemma {:induction false} GroupRepIsBest(emails: seq<ClassifiedEmail>, key: string -> string, k: string)
    requires k in GroupBy(emails, key).groups
    ensures forall j :: 0 <= j < |emails| && key(emails[j].subject) == k
              ==> emails[j].score <= GroupBy(emails, key).groups[k].rep.score
  {
    var p, e := emails[..|emails| - 1], emails[|emails| - 1];
    assert emails == p + [e];
    if k in GroupBy(p, key).groups {
      GroupRepIsBest(p, key, k);
      assert forall j :: 0 <= j < |p| ==> emails[j] == p[j];
    } else {
      GroupByHasKeys(p, key);
    }
  }

  /** The representative of a group is the first of its emails that
      reaches the group's top score: every earlier email of the group
      scores strictly less. */
  lemma {:induction false} GroupRepIsFirst(emails: seq<ClassifiedEmail>, key: string -> string, k: string)
    requires k in GroupBy(emails, key).groups
    ensures exists i :: 0 <= i < |emails| && emails[i] == GroupBy(emails, key).groups[k].rep
              && forall j :: 0 <= j < i && key(emails[j].subject) == k ==> emails[j].score < emails[i].score
  {
    var p, e := emails[..|emails| - 1], emails[|emails| - 1];
    assert emails == p + [e];
    var prev := GroupBy(p, key);
    var rep := GroupBy(emails, key).groups[k].rep;
    if k !in prev.groups {
      GroupByHasKeys(p, key);
      assert emails[|p|] == rep;
    } else {
      GroupRepIsFirst(p, key, k);
      var i :| 0 <= i < |p| && p[i] == prev.groups[k].rep
               && forall j :: 0 <= j < i && key(p[j].subject) == k ==> p[j].score < p[i].score;
      assert forall j :: 0 <= j < |p| ==> emails[j] == p[j];
      if key(e.subject) == k && e.score > prev.groups[k].rep.score {
        GroupRepIsBest(p, key, k);
        assert emails[|p|] == rep;
      } else {
        assert emails[i] == rep;
      }
    }
  }

  // ---------------------------------------------------------------------
  // The (representative, count) list and its ordering
  // ---------------------------------------------------------------------

  /** One `(rep, count)` pair of the summary's item list. */
  datatype Entry = Entry(email: ClassifiedEmail, count: nat)

  /** The pairs of a grouping in dict order (`grouped.items()`). */
  function EntriesOf(order: seq<string>, groups: map<string, Group>): (r: seq<Entry>)
    requires forall k :: k in order ==> k in groups
    ensures |r| == |order|
    ensures forall i :: 0 <= i < |r| ==> r[i] == Entry(groups[order[i]].rep, groups[order[i]].count)
  {
    if order == [] then []
    else
      var k := order[|order| - 1];
      EntriesOf(order[..|order| - 1], groups) + [Entry(groups[k].rep, groups[k].count)]
  }

  function Entries(g: Grouped): seq<Entry>
    requires ValidGrouped(g)
  {
    EntriesOf(g.order, g.groups)
  }

  /** The number of emails a list of pairs stands for. */
  function TotalCount(entries: seq<Entry>): nat {
    if entries == [] then 0 else TotalCount(entries[..|entries| - 1]) + entries[|entries| - 1].count
  }

  lemma {:induction false} TotalCountAppend(a: seq<Entry>, b: seq<Entry>)
    ensures TotalCount(a + b) == TotalCount(a) + TotalCount(b)
  {
    if b == [] {
      assert a + b == a;
    } else {
      TotalCountAppend(a, b[..|b| - 1]);
      assert (a + b)[..|a + b| - 1] == a + b[..|b| - 1];
    }
  }

  /** Updating a group whose key is not listed leaves the pairs alone. */
  lemma {:induction false} EntriesOfOther(order: seq<string>, groups: map<string, Group>, k: string, v: Group)
    requires forall x :: x in order ==> x in groups
    requires k !in order
    ensures EntriesOf(order, groups[k := v]) == EntriesOf(order, groups)
  {
    if order != [] {
      EntriesOfOther(order[..|order| - 1], groups, k, v);
    }
  }

  /** Updating a listed group changes the total by the change in its
      count. */
  lemma {:induction false} TotalCountUpdate(order: seq<string>, groups: map<string, Group>, k: string, v: Group)
    requires forall x :: x in order ==> x in groups
    requires NoDup(order) && k in order
    ensures TotalCount(EntriesOf(order, groups[k := v])) + groups[k].count
            == TotalCount(EntriesOf(order, groups)) + v.count
  {
    var p, last := order[..|order| - 1], order[|order| - 1];
    NoDupInit(order, k);
    if last == k {
      TotalCountUpdateLast(p, groups, k, v);
    } else {
      TotalCountUpdate(p, groups, k, v);
      TotalCountUpdateOther(p, groups, k, v, last);
    }
  }

  /** Dropping the last key of a duplicate-free order keeps it free of
      duplicates, loses only that key, and does not contain it again. */
  lemma NoDupInit(order: seq<string>, k: string)
    requires NoDup(order) && order != []
    ensures var p := order[..|order| - 1];
      && order == p + [order[|order| - 1]]
      && NoDup(p)
      && order[|order| - 1] !in p
      && (k in order && k != order[|order| - 1] ==> k in p)
  {
    var p := order[..|order| - 1];
    assert order == p + [order[|order| - 1]];
    forall i | 0 <= i < |p| ensures p[i] == order[i] {}
    if k in order && k != order[|order| - 1] {
      var i :| 0 <= i < |order| && order[i] == k;
      assert p[i] == k;
    }
  }

  lemma TotalCountUpdateLast(p: seq<string>, groups: map<string, Group>, k: string, v: Group)
    requires forall x :: x in p ==> x in groups
    requires k !in p && k in groups
    ensures TotalCount(EntriesOf(p + [k], groups[k := v])) + groups[k].count
            == TotalCount(EntriesOf(p + [k], groups)) + v.count
  {
    var o := p + [k];
    assert o[..|o| - 1] == p;
    EntriesOfOther(p, groups, k, v);
    TotalCountSnoc(EntriesOf(p, groups), Entry(groups[k].rep, groups[k].count));
    TotalCountSnoc(EntriesOf(p, groups), Entry(v.rep, v.count));
  }

  lemma TotalCountUpdateOther(p: seq<string>, groups: map<string, Group>, k: string, v: Group, last: string)
    requires forall x :: x in p ==> x in groups
    requires last in groups && last != k
    ensures TotalCount(EntriesOf(p + [last], groups[k := v])) - TotalCount(EntriesOf(p, groups[k := v]))
            == TotalCount(EntriesOf(p + [last], groups)) - TotalCount(EntriesOf(p, groups))
  {
    var o := p + [last];
    assert o[..|o| - 1] == p;
    TotalCountSnoc(EntriesOf(p, groups), Entry(groups[last].rep, groups[last].count));
    TotalCountSnoc(EntriesOf(p, groups[k := v]), Entry(groups[last].rep, groups[last].count));
  }

  lemma TotalCountSnoc(s: seq<Entry>, x: Entry)
    ensures TotalCount(s + [x]) == TotalCount(s) + x.count
  {
    assert (s + [x])[..|s|] == s;
  }

  lemma GroupCountsNewKey(order: seq<string>, groups: map<string, Group>, k: string, v: Group)
    requires forall x :: x in order ==> x in groups
    requires k !in order
    ensures TotalCount(EntriesOf(order + [k], groups[k := v])) == TotalCount(EntriesOf(order, groups)) + v.count
  {
    var o', m' := order + [k], groups[k := v];
    var prefix := EntriesOf(order, m');
    assert o'[..|o'| - 1] == order;
    assert EntriesOf(o', m') == prefix + [Entry(v.rep, v.count)];
    assert (prefix + [Entry(v.rep, v.count)])[..|prefix|] == prefix;
    EntriesOfOther(order, groups, k, v);
  }

  /** Grouping loses no email: the counts of all groups add up to the
      number of emails grouped. */
  lemma {:induction false} GroupCountsAddUp(emails: seq<ClassifiedEmail>, key: string -> string)
    ensures TotalCount(Entries(GroupBy(emails, key))) == |emails|
  {
    if emails == [] {
      assert Entries(GroupBy(emails, key)) == [];
    } else {
      var p, e := emails[..|emails| - 1], emails[|emails| - 1];
      GroupCountsAddUp(p, key);
      GroupBySnoc(emails, key);
      AddEmailTotal(GroupBy(p, key), e, key(e.subject));
    }
  }

  /** Adding one email to a grouping raises the total count by one. */
  lemma AddEmailTotal(g: Grouped, e: ClassifiedEmail, k: string)
    requires ValidGrouped(g)
    ensures ValidGrouped(AddEmail(g, e, k))
    ensures TotalCount(Entries(AddEmail(g, e, k))) == TotalCount(Entries(g)) + 1
  {
    if k in g.groups {
      AddKnownTotal(g, e, k);
    } else {
      AddNewTotal(g, e, k);
    }
  }

  lemma AddKnownTotal(g: Grouped, e: ClassifiedEmail, k: string)
    requires ValidGrouped(g) && k in g.groups
    ensures ValidGrouped(AddEmail(g, e, k))
    ensures TotalCount(Entries(AddEmail(g, e, k))) == TotalCount(Entries(g)) + 1
  {
    var grp := g.groups[k];
    var v := Group(if e.score > grp.rep.score then e else grp.rep, grp.count + 1);
    var g' := Grouped(g.order, g.groups[k := v]);
    assert AddEmail(g, e, k) == g';
    UpdateKeepsValid(g, k, v);
    TotalCountUpdate(g.order, g.groups, k, v);
  }

  lemma UpdateKeepsValid(g: Grouped, k: string, v: Group)
    requires ValidGrouped(g) && k in g.groups
    ensures ValidGrouped(Grouped(g.order, g.groups[k := v]))
  {
    assert g.groups[k := v].Keys == g.groups.Keys;
  }

  lemma AddNewTotal(g: Grouped, e: ClassifiedEmail, k: string)
    requires ValidGrouped(g) && k !in g.groups
    ensures ValidGrouped(AddEmail(g, e, k))
    ensures TotalCount(Entries(AddEmail(g, e, k))) == TotalCount(Entries(g)) + 1
  {
    var g' := Grouped(g.order + [k], g.groups[k := Group(e, 1)]);
    assert AddEmail(g, e, k) == g';
    assert ValidGrouped(g') by {
      assert forall i :: 0 <= i < |g.order| ==> g'.order[i] == g.order[i];
    }
    GroupCountsNewKey(g.order, g.groups, k, Group(e, 1));
  }

  /** `a` sorts no later than `b` under `key=(score, count), reverse=True`:
      its (score, count) pair is at least as large. */
  predicate Geq(a: Entry, b: Entry) {
    a.email.score > b.email.score || (a.email.score == b.email.score && a.count >= b.count)
  }

  predicate SortedDesc(s: seq<Entry>) {
    forall i, j :: 0 <= i < j < |s| ==> Geq(s[i], s[j])
  }

  /** Inserts `x` after every element whose pair is at least as large as
      its own, so equal pairs keep their order. */
  function Insert(s: seq<Entry>, x: Entry): seq<Entry> {
    if s == [] then [x]
    else if Geq(s[|s| - 1], x) then s + [x]
    else Insert(s[..|s| - 1], x) + [s[|s| - 1]]
  }

  /** `items.sort(key=lambda x: (x[0].score, x[1]), reverse=True)`: a
      stable sort into descending (score, count) order. */
  function SortDesc(s: seq<Entry>): seq<Entry> {
    if s == [] then [] else Insert(SortDesc(s[..|s| - 1]), s[|s| - 1])
  }

  lemma {:induction false} InsertPermutes(s: seq<Entry>, x: Entry)
    ensures multiset(Insert(s, x)) == multiset(s) + multiset{x}
  {
    if s != [] && !Geq(s[|s| - 1], x) {
      var p, last := s[..|s| - 1], s[|s| - 1];
      assert s == p + [last];
      InsertPermutes(p, x);
    }
  }

  lemma {:induction false} InsertSorted(s: seq<Entry>, x: Entry)
    requires SortedDesc(s)
    ensures SortedDesc(Insert(s, x))
  {
    if s != [] && !Geq(s[|s| - 1], x) {
      var p, last := s[..|s| - 1], s[|s| - 1];
      assert s == p + [last];
      InsertSorted(p, x);
      InsertPermutes(p, x);
      InsertAbove(p, x, last);
      SortedSnoc(Insert(p, x), last);
    }
  }

  /** When `x` outranks `last`, everything `Insert(p, x)` holds is at least
      `last`, provided `p` already was. */
  lemma InsertAbove(p: seq<Entry>, x: Entry, last: Entry)
    requires SortedDesc(p + [last]) && !Geq(last, x)
    requires multiset(Insert(p, x)) == multiset(p) + multiset{x}
    ensures forall y :: y in Insert(p, x) ==> Geq(y, last)
  {
    var q := Insert(p, x);
    forall y | y in q
      ensures Geq(y, last)
    {
      assert y in multiset(q);
      if y != x {
        assert y in multiset(p);
        var i :| 0 <= i < |p| && p[i] == y;
        assert (p + [last])[i] == y && (p + [last])[|p|] == last;
      }
    }
  }

  /** A sorted list stays sorted when an element below all of it is
      appended. */
  lemma SortedSnoc(q: seq<Entry>, last: Entry)
    requires SortedDesc(q)
    requires forall y :: y in q ==> Geq(y, last)
    ensures SortedDesc(q + [last])
  {
    var r := q + [last];
    forall i, j | 0 <= i < j < |r|
      ensures Geq(r[i], r[j])
    {
      assert r[i] == q[i];
      if j < |q| {
        assert r[j] == q[j];
      } else {
        assert q[i] in q;
      }
    }
  }

  /** The sort's result is in descending (score, count) order. */
  lemma {:induction false} SortDescSorted(s: seq<Entry>)
    ensures SortedDesc(SortDesc(s))
  {
    if s != [] {
      SortDescSorted(s[..|s| - 1]);
      InsertSorted(SortDesc(s[..|s| - 1]), s[|s| - 1]);
    }
  }

  /** The sort only reorders: the result is a permutation of its input. */
  lemma {:induction false} SortDescPermutes(s: seq<Entry>)
    ensures multiset(SortDesc(s)) == multiset(s)
  {
    if s != [] {
      var p := s[..|s| - 1];
      assert s == p + [s[|s| - 1]];
      SortDescPermutes(p);
      InsertPermutes(SortDesc(p), s[|s| - 1]);
    }
  }

  /** The pairs with a given (score, count), in list order. */
  function WithPair(s: seq<Entry>, score: int, count: nat): seq<Entry> {
    if s == [] then []
    else
      var x := s[|s| - 1];
      WithPair(s[..|s| - 1], score, count) + (if x.email.score == score && x.count == count then [x] else [])
  }

  lemma {:induction false} WithPairAppend(a: seq<Entry>, b: seq<Entry>, score: int, count: nat)
    ensures WithPair(a + b, score, count) == WithPair(a, score, count) + WithPair(b, score, count)
  {
    if b == [] {
      assert a + b == a;
    } else {
      WithPairAppend(a, b[..|b| - 1], score, count);
      assert (a + b)[..|a + b| - 1] == a + b[..|b| - 1];
    }
  }

  lemma {:induction false} InsertStable(s: seq<Entry>, x: Entry, score: int, count: nat)
    ensures WithPair(Insert(s, x), score, count) == WithPair(s + [x], score, count)
  {
    if s != [] && !Geq(s[|s| - 1], x) {
      var p, last := s[..|s| - 1], s[|s| - 1];
      assert s == p + [last];
      InsertStable(p, x, score, count);
      WithPairAppend(Insert(p, x), [last], score, count);
      WithPairAppend(p + [x], [last], score, count);
      WithPairAppend(p, [x], score, count);
      WithPairAppend(p, [last], score, count);
      WithPairAppend(p + [last], [x], score, count);
      assert p + [last] + [x] == s + [x];
    }
  }

  /** The sort is stable: the pairs with any given (score, count) come out
      in the order they went in. */
  lemma {:induction false} SortDescStable(s: seq<Entry>, score: int, count: nat)
    ensures WithPair(SortDesc(s), score, count) == WithPair(s, score, count)
  {
    if s != [] {
      var p, x := s[..|s| - 1], s[|s| - 1];
      assert s == p + [x];
      SortDescStable(p, score, count);
      InsertStable(SortDesc(p), x, score, count);
      WithPairAppend(SortDesc(p), [x], score, count);
      WithPairAppend(p, [x], score, count);
    }
  }

  /** The in-place sort of the item list: insertion sort, shifting larger
      pairs' successors right. */
  method SortEntries(a: array<Entry>)
    modifies a
    ensures a[..] == SortDesc(old(a[..]))
  {
    ghost var input := a[..];
    for i := 0 to a.Length
      invariant a[..i] == SortDesc(input[..i])
      invariant a[i..] == input[i..]
    {
      SortDescStep(input, i);
      InsertInPlace(a, i);
    }
    assert input[..a.Length] == input;
  }

  /** One pass of the insertion sort: moves `a[i]` left past every
      element of the sorted prefix `a[..i]` whose pair is smaller. */
  method InsertInPlace(a: array<Entry>, i: nat)
    requires i < a.Length
    modifies a
    ensures a[..i + 1] == Insert(old(a[..i]), old(a[i]))
    ensures a[i + 1..] == old(a[i + 1..])
  {
    var x := a[i];
    ghost var sorted := a[..i];
    ghost var rest := a[i + 1..];
    var j := i;
    assert a[..] == sorted[..j] + [a[j]] + sorted[j..] + rest;
    while j > 0 && !Geq(a[j - 1], x)
      invariant 0 <= j <= i
      invariant a[..] == sorted[..j] + [a[j]] + sorted[j..] + rest
      invariant forall k :: j <= k < i ==> !Geq(sorted[k], x)
    {
      ShiftSlot(sorted, rest, j, a[j]);
      a[j] := a[j - 1];
      j := j - 1;
    }
    a[j] := x;
    InsertAt(sorted, x, j);
    PlacedSlices(sorted, rest, j, x);
  }

  /** `x` goes after the last element whose pair is at least its own: right
      of position `j` every pair is smaller. */
  lemma {:induction false} InsertAt(s: seq<Entry>, x: Entry, j: nat)
    requires j <= |s|
    requires j == 0 || Geq(s[j - 1], x)
    requires forall k :: j <= k < |s| ==> !Geq(s[k], x)
    ensures Insert(s, x) == s[..j] + [x] + s[j..]
    decreases |s|
  {
    if |s| == j {
      assert s[..j] == s && s[j..] == [];
    } else {
      var p, last := s[..|s| - 1], s[|s| - 1];
      InsertAt(p, x, j);
      calc {
        Insert(s, x);
        Insert(p, x) + [last];
        p[..j] + [x] + (p[j..] + [last]);
        { assert p[..j] == s[..j] && p[j..] + [last] == s[j..]; }
        s[..j] + [x] + s[j..];
      }
    }
  }

  /** One shift on the array contents: the element left of the slot moves
      into it, and the slot moves one place left. */
  lemma ShiftSlot(sorted: seq<Entry>, rest: seq<Entry>, j: nat, y: Entry)
    requires 0 < j <= |sorted|
    ensures var b := sorted[..j] + [y] + sorted[j..] + rest;
      b[j - 1] == sorted[j - 1]
      && b[j := b[j - 1]] == sorted[..j - 1] + [sorted[j - 1]] + sorted[j - 1..] + rest
  {
    var b := sorted[..j] + [y] + sorted[j..] + rest;
    var c := sorted[..j - 1] + [sorted[j - 1]] + sorted[j - 1..] + rest;
    assert |b| == |c|;
    forall k | 0 <= k < |b|
      ensures b[j := b[j - 1]][k] == c[k]
    {
      if k < j - 1 {
        assert b[k] == sorted[k] && c[k] == sorted[k];
      } else if k <= j {
        assert c[k] == sorted[j - 1];
      } else if k <= |sorted| {
        assert b[k] == sorted[k - 1] && c[k] == sorted[k - 1];
      } else {
        assert b[k] == rest[k - |sorted| - 1] && c[k] == rest[k - |sorted| - 1];
      }
    }
  }

  /** With `x` placed in the slot, the first `|sorted| + 1` elements are the
      insertion and the rest is untouched. */
  lemma PlacedSlices(sorted: seq<Entry>, rest: seq<Entry>, j: nat, x: Entry)
    requires j <= |sorted|
    ensures var b := sorted[..j] + [x] + sorted[j..] + rest;
      b[..|sorted| + 1] == sorted[..j] + [x] + sorted[j..]
      && b[|sorted| + 1..] == rest
  {
    var front := sorted[..j] + [x] + sorted[j..];
    assert sorted[..j] + [x] + sorted[j..] + rest == front + rest;
  }

  lemma SortDescStep(s: seq<Entry>, i: nat)
    requires i < |s|
    ensures SortDesc(s[..i + 1]) == Insert(SortDesc(s[..i]), s[i])
  {
    assert s[..i + 1][..i] == s[..i];
  }

  /** Sorting keeps the number of emails the pairs stand for. */
  lemma {:induction false} InsertTotal(s: seq<Entry>, x: Entry)
    ensures TotalCount(Insert(s, x)) == TotalCount(s) + x.count
  {
    if s != [] && !Geq(s[|s| - 1], x) {
      InsertTotal(s[..|s| - 1], x);
    }
  }

  lemma {:induction false} SortDescTotal(s: seq<Entry>)
    ensures TotalCount(SortDesc(s)) == TotalCount(s)
  {
    if s != [] {
      SortDescTotal(s[..|s| - 1]);
      InsertTotal(SortDesc(s[..|s| - 1]), s[|s| - 1]);
    }
  }

  // ---------------------------------------------------------------------
  // _format_block
  // ---------------------------------------------------------------------

  const SummaryLabel := "- Resumo (1 linha): "
  const ActionsLabel := "- Ações práticas:"

  /** ` (recebido {count}x)` for a group of more than one email. */
  function CountSuffix(count: nat): string {
    if count > 1 then " (recebido " + Decimal(count) + "x)" else ""
  }

  /** `{idx}) [{score}/100] {subject}{count_txt}` */
  function EntryHeading(idx: nat, e: Entry): string {
    Decimal(idx) + ") [" + IntToString(e.email.score) + "/100] " + e.email.subject + CountSuffix(e.count)
  }

  /** One `  - {a}` line per action, in order. */
  function ActionLines(actions: seq<string>): (r: seq<string>)
    ensures |r| == |actions|
    ensures forall k :: 0 <= k < |r| ==> r[k] == "  - " + actions[k]
  {
    if actions == [] then []
    else ActionLines(actions[..|actions| - 1]) + ["  - " + actions[|actions| - 1]]
  }

  /** The lines of the `idx`-th pair: heading, one-line summary, the
      actions when asked for and present, and a blank separator. */
  function EntryLines(idx: nat, e: Entry, includeActions: bool): seq<string> {
    [EntryHeading(idx, e), SummaryLabel + e.email.oneLiner]
    + (if includeActions && e.email.actions != [] then [ActionsLabel] + ActionLines(e.email.actions) else [])
    + [""]
  }

  /** The lines of a block before the final blank line is dropped. */
  function RawBlockLines(block: seq<Entry>, includeActions: bool): seq<string> {
    if block == [] then []
    else RawBlockLines(block[..|block| - 1], includeActions) + EntryLines(|block|, block[|block| - 1], includeActions)
  }

  /** `_format_block(block, include_actions)`. */
  function BlockLines(block: seq<Entry>, includeActions: bool): seq<string> {
    var raw := RawBlockLines(block, includeActions);
    if raw != [] && raw[|raw| - 1] == "" then raw[..|raw| - 1] else raw
  }

  lemma EntryLinesShape(idx: nat, e: Entry, includeActions: bool)
    ensures var el := EntryLines(idx, e, includeActions);
      && |el| >= 3 && el[0] == EntryHeading(idx, e) && el[|el| - 1] == ""
      && el[|el| - 2] != ""
  {
    var el := EntryLines(idx, e, includeActions);
    if includeActions && e.email.actions != [] {
      var acts := e.email.actions;
      assert el[|el| - 2] == "  - " + acts[|acts| - 1];
      assert el[|el| - 2][0] == ' ';
    } else {
      assert el[|el| - 2] == SummaryLabel + e.email.oneLiner;
      assert el[|el| - 2][0] == '-';
    }
  }

  lemma {:induction false} RawBlockLinesShape(block: seq<Entry>, includeActions: bool)
    ensures var raw := RawBlockLines(block, includeActions);
      && (raw == [] <==> block == [])
      && (raw != [] ==> |raw| >= 2 && raw[|raw| - 1] == "" && raw[|raw| - 2] != "")
  {
    if block != [] {
      var p, x := block[..|block| - 1], block[|block| - 1];
      var el := EntryLines(|block|, x, includeActions);
      assert RawBlockLines(block, includeActions) == RawBlockLines(p, includeActions) + el;
      EntryLinesShape(|block|, x, includeActions);
      EndsWithBlank(RawBlockLines(p, includeActions), el, "");
    }
  }

  /** Appending a list that ends in `blank` preceded by something else
      gives a list with the same ending. */
  lemma EndsWithBlank<T>(a: seq<T>, b: seq<T>, blank: T)
    requires |b| >= 2 && b[|b| - 1] == blank && b[|b| - 2] != blank
    ensures var c := a + b;
      |c| >= 2 && c[|c| - 1] == blank && c[|c| - 2] != blank
  {
    var c := a + b;
    assert c[|c| - 1] == b[|b| - 1] && c[|c| - 2] == b[|b| - 2];
  }

  lemma {:induction false} RawBlockHeadings(block: seq<Entry>, includeActions: bool, i: nat)
    requires i < |block|
    ensures EntryHeading(i + 1, block[i]) in RawBlockLines(block, includeActions)
  {
    var p, x := block[..|block| - 1], block[|block| - 1];
    var rp, el := RawBlockLines(p, includeActions), EntryLines(|block|, x, includeActions);
    var h := EntryHeading(i + 1, block[i]);
    assert RawBlockLines(block, includeActions) == rp + el;
    if i < |p| {
      assert block[i] == p[i];
      RawBlockHeadings(p, includeActions, i);
      InAppend(rp, el, h);
    } else {
      assert i + 1 == |block| && block[i] == x;
      EntryLinesShape(|block|, x, includeActions);
      InAppend(rp, el, h);
    }
  }

  lemma InAppend<T>(a: seq<T>, b: seq<T>, x: T)
    requires x in a || x in b
    ensures x in a + b
  {
  }

  /** A block is empty exactly for no pairs, never ends in a blank line,
      and holds the numbered heading `1)`, `2)`, … of every pair. */
  lemma BlockLinesShape(block: seq<Entry>, includeActions: bool)
    ensures var r := BlockLines(block, includeActions);
      && (r == [] <==> block == [])
      && (r != [] ==> r[|r| - 1] != "")
      && forall i :: 0 <= i < |block| ==> EntryHeading(i + 1, block[i]) in r
  {
    BlockLinesEnd(block, includeActions);
    forall i | 0 <= i < |block|
      ensures EntryHeading(i + 1, block[i]) in BlockLines(block, includeActions)
    {
      BlockHeading(block, includeActions, i);
    }
  }

  /** Dropping the final blank line leaves a visible last line. */
  lemma BlockLinesEnd(block: seq<Entry>, includeActions: bool)
    ensures var r := BlockLines(block, includeActions);
      && (r == [] <==> block == [])
      && (r != [] ==> r[|r| - 1] != "")
  {
    var raw := RawBlockLines(block, includeActions);
    RawBlockLinesShape(block, includeActions);
    if block != [] {
      var r := raw[..|raw| - 1];
      assert BlockLines(block, includeActions) == r;
      assert r[|r| - 1] == raw[|raw| - 2];
    }
  }

  /** The heading of the `i`-th pair survives dropping the final blank
      line. */
  lemma BlockHeading(block: seq<Entry>, includeActions: bool, i: nat)
    requires i < |block|
    ensures EntryHeading(i + 1, block[i]) in BlockLines(block, includeActions)
  {
    var raw := RawBlockLines(block, includeActions);
    var h := EntryHeading(i + 1, block[i]);
    RawBlockLinesShape(block, includeActions);
    RawBlockHeadings(block, includeActions, i);
    assert h != "" by {
      assert h[0] == EntryHeading(i + 1, block[i])[0];
    }
    InInit(raw, h, "");
  }

  /** An element other than the last one of a list survives dropping the
      last element. */
  lemma InInit<T>(s: seq<T>, x: T, last: T)
    requires s != [] && s[|s| - 1] == last && x in s && x != last
    ensures x in s[..|s| - 1]
  {
    var j :| 0 <= j < |s| && s[j] == x;
    assert s[..|s| - 1][j] == x;
  }

  /** Without actions every pair takes three lines (heading, summary,
      separator), less the separator dropped at the end. */
  lemma {:induction false} BlockLinesWithoutActions(block: seq<Entry>)
    ensures |RawBlockLines(block, false)| == 3 * |block|
    ensures block != [] ==> |BlockLines(block, false)| == 3 * |block| - 1
  {
    if block != [] {
      BlockLinesWithoutActions(block[..|block| - 1]);
    }
    RawBlockLinesShape(block, false);
  }

  /** `_format_block`: walks the pairs with 1-based indices, appending each
      pair's lines, then drops the trailing blank line. */
  method FormatBlock(block: seq<Entry>, includeActions: bool) returns (out: seq<string>)
    ensures out == BlockLines(block, includeActions)
  {
    out := [];
    for i := 0 to |block|
      invariant out == RawBlockLines(block[..i], includeActions)
    {
      RawBlockLinesStep(block, includeActions, i);
      out := AppendEntryLines(out, i + 1, block[i], includeActions);
    }
    assert block[..|block|] == block;
    if out != [] && out[|out| - 1] == "" {
      out := out[..|out| - 1];
    }
  }

  lemma RawBlockLinesStep(block: seq<Entry>, includeActions: bool, i: nat)
    requires i < |block|
    ensures RawBlockLines(block[..i + 1], includeActions)
            == RawBlockLines(block[..i], includeActions) + EntryLines(i + 1, block[i], includeActions)
  {
    assert block[..i + 1][..i] == block[..i];
  }

  /** The body of the `_format_block` loop for one pair. */
  method AppendEntryLines(lines: seq<string>, idx: nat, e: Entry, includeActions: bool) returns (out: seq<string>)
    ensures out == lines + EntryLines(idx, e, includeActions)
  {
    out := lines + [EntryHeading(idx, e)];
    out := out + [SummaryLabel + e.email.oneLiner];
    ghost var mid: seq<string> := [];
    if includeActions {
      if e.email.actions != [] {
        out := out + [ActionsLabel];
        out := AppendActionLines(out, e.email.actions);
        mid := [ActionsLabel] + ActionLines(e.email.actions);
        AppendAssoc(lines + [EntryHeading(idx, e)] + [SummaryLabel + e.email.oneLiner], [ActionsLabel], ActionLines(e.email.actions));
      }
    }
    out := out + [""];
    LinesShape(lines, EntryHeading(idx, e), SummaryLabel + e.email.oneLiner, mid, "");
  }

  lemma AppendAssoc<T>(a: seq<T>, b: seq<T>, c: seq<T>)
    ensures a + b + c == a + (b + c)
  {
  }

  lemma LinesShape<T>(lines: seq<T>, h: T, s: T, mid: seq<T>, blank: T)
    ensures lines + [h] + [s] + mid + [blank] == lines + ([h, s] + mid + [blank])
  {
  }

  /** The `for a in actions` loop of `_format_block`: one `  - a` line per
      action, appended in order. */
  method AppendActionLines(lines: seq<string>, actions: seq<string>) returns (out: seq<string>)
    ensures out == lines + ActionLines(actions)
  {
    out := lines;
    for k := 0 to |actions|
      invariant out == lines + ActionLines(actions[..k])
    {
      assert actions[..k + 1][..k] == actions[..k];
      out := out + ["  - " + actions[k]];
    }
    assert actions[..|actions|] == actions;
  }

  // ---------------------------------------------------------------------
  // build_summary
  // ---------------------------------------------------------------------

  // Split into a short head plus the rest so that the verifier reads the
  // first word directly; the proofs that a rendered summary differs from
  // `NothingRelevant` compare those heads.
  const HeaderHigh := "Emails " + "com prioridade ALTA\n"
  const HeaderMedium := "Emails " + "com prioridade MÉDIA\n"
  const HeaderLow := "Emails " + "de BAIXA prioridade (ação opcional)\n"
  const NothingRelevant := "Nada " + "relevante encontrado (banco/contas/escola/prazos)."

  /** `[classify_email(e) for e in emails]` */
  function ClassifyAll(emails: seq<Email>, env: Oracles): seq<ClassifiedEmail> {
    seq(|emails|, i requires 0 <= i < |emails| => ClassifyEmail(emails[i], env))
  }

  /** `[c for c in classified if c.priority != "IGNORAR"]` */
  function Relevant(cs: seq<ClassifiedEmail>): (r: seq<ClassifiedEmail>)
    ensures forall k :: 0 <= k < |r| ==> r[k].priority != Ignorar
    ensures r == [] <==> forall i :: 0 <= i < |cs| ==> cs[i].priority == Ignorar
  {
    if cs == [] then []
    else
      var p, c := cs[..|cs| - 1], cs[|cs| - 1];
      var rp := Relevant(p);
      assert forall i :: 0 <= i < |p| ==> cs[i] == p[i];
      if c.priority == Ignorar then rp else rp + [c]
  }

  /** The filter keeps every non-IGNORAR email, as often as it occurs,
      and nothing else. */
  lemma {:induction false} RelevantExactly(cs: seq<ClassifiedEmail>)
    ensures forall c :: multiset(Relevant(cs))[c] == if c.priority == Ignorar then 0 else multiset(cs)[c]
    ensures forall i :: 0 <= i < |cs| && cs[i].priority != Ignorar ==> cs[i] in Relevant(cs)
  {
    if cs != [] {
      var p, c := cs[..|cs| - 1], cs[|cs| - 1];
      assert cs == p + [c];
      RelevantExactly(p);
      assert multiset(cs) == multiset(p) + multiset{c};
      forall i | 0 <= i < |cs| && cs[i].priority != Ignorar
        ensures cs[i] in Relevant(cs)
      {
        assert multiset(cs)[cs[i]] > 0;
        assert multiset(Relevant(cs))[cs[i]] > 0;
      }
    }
  }

  /** The filter keeps the order of what it keeps: filtering a
      concatenation concatenates the filtered parts. */
  lemma {:induction false} RelevantAppend(a: seq<ClassifiedEmail>, b: seq<ClassifiedEmail>)
    ensures Relevant(a + b) == Relevant(a) + Relevant(b)
  {
    if b == [] {
      assert a + b == a;
    } else {
      var p, c := b[..|b| - 1], b[|b| - 1];
      assert (a + b)[..|a + b| - 1] == a + p && (a + b)[|a + b| - 1] == c;
      RelevantAppend(a, p);
    }
  }

  /** The pairs of one priority, in list order. */
  function WithPriority(s: seq<Entry>, p: Priority): (r: seq<Entry>)
    ensures forall k :: 0 <= k < |r| ==> r[k].email.priority == p
  {
    if s == [] then []
    else
      var x := s[|s| - 1];
      WithPriority(s[..|s| - 1], p) + (if x.email.priority == p then [x] else [])
  }

  /** A section keeps every pair of its priority as often as it occurs,
      and nothing else. */
  lemma {:induction false} WithPriorityExactly(s: seq<Entry>, p: Priority)
    ensures forall x :: multiset(WithPriority(s, p))[x] == if x.email.priority == p then multiset(s)[x] else 0
    ensures forall i :: 0 <= i < |s| && s[i].email.priority == p ==> s[i] in WithPriority(s, p)
  {
    if s != [] {
      var init, x := s[..|s| - 1], s[|s| - 1];
      assert s == init + [x];
      WithPriorityExactly(init, p);
      assert multiset(s) == multiset(init) + multiset{x};
      forall i | 0 <= i < |s| && s[i].email.priority == p
        ensures s[i] in WithPriority(s, p)
      {
        assert multiset(s)[s[i]] > 0;
        assert multiset(WithPriority(s, p))[s[i]] > 0;
      }
    }
  }

  /** A section keeps the list order: the section of a concatenation is
      the concatenation of the sections. */
  lemma {:induction false} WithPriorityAppend(a: seq<Entry>, b: seq<Entry>, p: Priority)
    ensures WithPriority(a + b, p) == WithPriority(a, p) + WithPriority(b, p)
  {
    if b == [] {
      assert a + b == a;
    } else {
      var init, x := b[..|b| - 1], b[|b| - 1];
      assert (a + b)[..|a + b| - 1] == a + init && (a + b)[|a + b| - 1] == x;
      WithPriorityAppend(a, init, p);
    }
  }

  /** The three sections in the order ALTA, MEDIA, BAIXA, each after its
      header and separated by a blank line; BAIXA lists no actions. */
  function SummaryLines(high: seq<Entry>, med: seq<Entry>, low: seq<Entry>): seq<string> {
    var l1 := if high != [] then AddSection([], HeaderHigh, BlockLines(high, true)) else [];
    var l2 := if med != [] then AddSection(l1, HeaderMedium, BlockLines(med, true)) else l1;
    if low != [] then AddSection(l2, HeaderLow, BlockLines(low, false)) else l2
  }

  /** A section after the lines so far: a blank line when there are any,
      the header, then the block. */
  function AddSection(lines: seq<string>, header: string, block: seq<string>): seq<string> {
    lines + (if lines != [] then [""] else []) + [header] + block
  }

  function Render(lines: seq<string>): string {
    if lines == [] then NothingRelevant else Strip(Join(lines, "\n"))
  }

  /** The summary's pairs: the non-IGNORAR emails grouped by subject key,
      then sorted. */
  function ItemsOf(classified: seq<ClassifiedEmail>): seq<Entry> {
    SortDesc(Entries(GroupBy(Relevant(classified), SubjectKey)))
  }

  /** What `build_summary` renders once its emails are classified. */
  function SummaryText(classified: seq<ClassifiedEmail>): string {
    var items := ItemsOf(classified);
    Render(SummaryLines(WithPriority(items, Alta), WithPriority(items, Media), WithPriority(items, Baixa)))
  }

  /** `build_summary(emails)`. */
  function Summary(emails: seq<Email>, env: Oracles): string {
    SummaryText(ClassifyAll(emails, env))
  }

  /** `build_summary`: classify, drop IGNORAR, group, list the pairs, sort
      them in place, split them by priority and render the sections. */
  method BuildSummary(emails: seq<Email>, env: Oracles) returns (text: string)
    ensures text == Summary(emails, env)
  {
    var classified := ClassifyAll(emails, env);
    text := SummarizeClassified(classified);
  }

  /** The part of `build_summary` after classification. */
  method SummarizeClassified(classified: seq<ClassifiedEmail>) returns (text: string)
    ensures text == SummaryText(classified)
  {
    var kept := Relevant(classified);
    var sorted := GroupAndSort(kept);
    var lines := SectionLines(WithPriority(sorted, Alta), WithPriority(sorted, Media), WithPriority(sorted, Baixa));
    if lines == [] {
      text := NothingRelevant;
    } else {
      text := Strip(Join(lines, "\n"));
    }
  }

  /** The middle of `build_summary`: group the kept emails, list the pairs
      and sort the list in place. */
  method GroupAndSort(kept: seq<ClassifiedEmail>) returns (sorted: seq<Entry>)
    ensures sorted == SortDesc(Entries(GroupBy(kept, SubjectKey)))
  {
    var grouped := GroupBySubject(kept);
    var items := ListItems(grouped);
    sorted := SortItems(items);
  }

  /** `items.sort(...)` on a fresh list holding `items`. */
  method SortItems(items: seq<Entry>) returns (sorted: seq<Entry>)
    ensures sorted == SortDesc(items)
  {
    var a := new Entry[|items|](k requires 0 <= k < |items| => items[k]);
    assert a[..] == items;
    SortEntries(a);
    sorted := a[..];
  }

  /** The `for _, (rep, count) in grouped.items()` loop of `build_summary`. */
  method ListItems(grouped: Grouped) returns (items: seq<Entry>)
    requires ValidGrouped(grouped)
    ensures items == Entries(grouped)
  {
    items := [];
    for i := 0 to |grouped.order|
      invariant items == EntriesOf(grouped.order[..i], grouped.groups)
    {
      var key := grouped.order[i];
      assert grouped.order[..i + 1][..i] == grouped.order[..i];
      items := items + [Entry(grouped.groups[key].rep, grouped.groups[key].count)];
    }
    assert grouped.order[..|grouped.order|] == grouped.order;
  }

  /** The `lines` list `build_summary` assembles from the three sections. */
  method SectionLines(high: seq<Entry>, med: seq<Entry>, low: seq<Entry>) returns (lines: seq<string>)
    ensures lines == SummaryLines(high, med, low)
  {
    lines := [];
    if high != [] {
      lines := lines + [HeaderHigh];
      var block := FormatBlock(high, true);
      lines := lines + block;
    }
    ghost var l1 := lines;
    if med != [] {
      if lines != [] {
        lines := lines + [""];
      }
      lines := lines + [HeaderMedium];
      var block := FormatBlock(med, true);
      lines := lines + block;
      assert lines == AddSection(l1, HeaderMedium, block);
    }
    ghost var l2 := lines;
    if low != [] {
      if lines != [] {
        lines := lines + [""];
      }
      lines := lines + [HeaderLow];
      var block := FormatBlock(low, false);
      lines := lines + block;
      assert lines == AddSection(l2, HeaderLow, block);
    }
  }

  // ---------------------------------------------------------------------
  // What the summary promises
  // ---------------------------------------------------------------------

  /** Every pair in the summary stands for emails that were kept: its
      representative is never IGNORAR. */
  lemma {:induction false} ItemsAreRelevant(kept: seq<ClassifiedEmail>)
    requires forall k :: 0 <= k < |kept| ==> kept[k].priority != Ignorar
    ensures var items := SortDesc(Entries(GroupBy(kept, SubjectKey)));
      forall k :: 0 <= k < |items| ==> items[k].email.priority != Ignorar
  {
    EntriesRelevant(kept);
    SortDescRelevant(Entries(GroupBy(kept, SubjectKey)));
  }

  /** Each group's representative is one of the grouped emails. */
  lemma {:induction false} EntriesRelevant(kept: seq<ClassifiedEmail>)
    requires forall k :: 0 <= k < |kept| ==> kept[k].priority != Ignorar
    ensures forall i :: 0 <= i < |Entries(GroupBy(kept, SubjectKey))|
              ==> Entries(GroupBy(kept, SubjectKey))[i].email.priority != Ignorar
  {
    var g := GroupBy(kept, SubjectKey);
    forall i | 0 <= i < |Entries(g)|
      ensures Entries(g)[i].email.priority != Ignorar
    {
      GroupRepIsFirst(kept, SubjectKey, g.order[i]);
    }
  }

  /** Sorting only reorders, so it keeps a property every pair has. */
  lemma {:induction false} SortDescRelevant(es: seq<Entry>)
    requires forall i :: 0 <= i < |es| ==> es[i].email.priority != Ignorar
    ensures forall k :: 0 <= k < |SortDesc(es)| ==> SortDesc(es)[k].email.priority != Ignorar
  {
    SortDescPermutes(es);
    forall k | 0 <= k < |SortDesc(es)|
      ensures SortDesc(es)[k].email.priority != Ignorar
    {
      var y := SortDesc(es)[k];
      assert y in multiset(SortDesc(es));
      assert y in multiset(es);
      var i :| 0 <= i < |es| && es[i] == y;
    }
  }

  lemma {:induction false} WithPriorityPartition(s: seq<Entry>)
    requires forall k :: 0 <= k < |s| ==> s[k].email.priority != Ignorar
    ensures TotalCount(s) == TotalCount(WithPriority(s, Alta)) + TotalCount(WithPriority(s, Media))
                              + TotalCount(WithPriority(s, Baixa))
  {
    if s != [] {
      var p, x := s[..|s| - 1], s[|s| - 1];
      assert forall k :: 0 <= k < |p| ==> p[k] == s[k];
      WithPriorityPartition(p);
      forall q: Priority
        ensures TotalCount(WithPriority(s, q)) == TotalCount(WithPriority(p, q)) + (if x.email.priority == q then x.count else 0)
      {
        if x.email.priority == q {
          TotalCountAppend(WithPriority(p, q), [x]);
        } else {
          assert WithPriority(s, q) == WithPriority(p, q) + [];
          assert WithPriority(p, q) + [] == WithPriority(p, q);
        }
      }
    }
  }

  lemma {:induction false} WithPriorityEmpty(s: seq<Entry>, p: Priority)
    ensures WithPriority(s, p) == [] <==> forall k :: 0 <= k < |s| ==> s[k].email.priority != p
  {
    if s != [] {
      WithPriorityEmpty(s[..|s| - 1], p);
    }
  }

  lemma {:induction false} WithPrioritySorted(s: seq<Entry>, p: Priority)
    requires SortedDesc(s)
    ensures SortedDesc(WithPriority(s, p))
    ensures forall y :: y in WithPriority(s, p) ==> y in s
  {
    if s != [] {
      var q, x := s[..|s| - 1], s[|s| - 1];
      WithPrioritySorted(q, p);
      var f := WithPriority(q, p);
      assert forall y :: y in q ==> y in s;
      if x.email.priority == p {
        var r := f + [x];
        forall i, j | 0 <= i < j < |r|
          ensures Geq(r[i], r[j])
        {
          assert r[i] == f[i];
          if j == |f| {
            assert f[i] in f;
            var k :| 0 <= k < |q| && q[k] == f[i];
            assert s[k] == f[i];
          } else {
            assert r[j] == f[j];
          }
        }
      }
    }
  }

  /** Each section lists only its own priority, in descending (score,
      count) order. */
  lemma SectionsSorted(classified: seq<ClassifiedEmail>, p: Priority)
    ensures var section := WithPriority(ItemsOf(classified), p);
      && SortedDesc(section)
      && forall k :: 0 <= k < |section| ==> section[k].email.priority == p
  {
    SortDescSorted(Entries(GroupBy(Relevant(classified), SubjectKey)));
    WithPrioritySorted(ItemsOf(classified), p);
  }

  /** The summary accounts for every email that is not IGNORAR exactly
      once: the counts shown in the three sections add up to the number of
      such emails. */
  lemma SummaryCountsEveryRelevantEmail(classified: seq<ClassifiedEmail>)
    ensures var items := ItemsOf(classified);
      TotalCount(WithPriority(items, Alta)) + TotalCount(WithPriority(items, Media))
        + TotalCount(WithPriority(items, Baixa))
      == |Relevant(classified)|
  {
    SectionCountsAddUp(Relevant(classified));
  }

  /** The three sections built from a list of non-IGNORAR emails account
      for every one of them. */
  lemma SectionCountsAddUp(kept: seq<ClassifiedEmail>)
    requires forall k :: 0 <= k < |kept| ==> kept[k].priority != Ignorar
    ensures var items := SortDesc(Entries(GroupBy(kept, SubjectKey)));
      TotalCount(WithPriority(items, Alta)) + TotalCount(WithPriority(items, Media))
        + TotalCount(WithPriority(items, Baixa))
      == |kept|
  {
    var items := SortDesc(Entries(GroupBy(kept, SubjectKey)));
    GroupCountsAddUp(kept, SubjectKey);
    SortDescTotal(Entries(GroupBy(kept, SubjectKey)));
    ItemsAreRelevant(kept);
    WithPriorityPartition(items);
  }

  lemma StripKeepsHead(s: string)
    requires s != [] && !IsWs(s[0])
    ensures Strip(s) != [] && Strip(s)[0] == s[0]
  {
    assert LeadWs(s) == 0;
  }

  lemma SummaryLinesHead(high: seq<Entry>, med: seq<Entry>, low: seq<Entry>)
    requires high != [] || med != [] || low != []
    ensures var lines := SummaryLines(high, med, low);
      lines != [] && lines[0] != [] && lines[0][0] == 'E'
  {
    assert HeaderHigh[0] == 'E' && HeaderMedium[0] == 'E' && HeaderLow[0] == 'E';
  }

  lemma {:induction false} ItemsNonEmpty(kept: seq<ClassifiedEmail>)
    requires kept != []
    ensures SortDesc(Entries(GroupBy(kept, SubjectKey))) != []
  {
    var g := GroupBy(kept, SubjectKey);
    GroupByKeys(kept, SubjectKey);
    assert SubjectKey(kept[0].subject) in g.order;
    SortDescPermutes(Entries(g));
    assert |multiset(SortDesc(Entries(g)))| == |Entries(g)| > 0;
  }

  lemma SomeSection(items: seq<Entry>)
    requires items != [] && items[0].email.priority != Ignorar
    ensures WithPriority(items, Alta) != [] || WithPriority(items, Media) != [] || WithPriority(items, Baixa) != []
  {
    WithPriorityEmpty(items, items[0].email.priority);
  }

  lemma RenderNotNothing(high: seq<Entry>, med: seq<Entry>, low: seq<Entry>)
    requires high != [] || med != [] || low != []
    ensures Render(SummaryLines(high, med, low)) != NothingRelevant
  {
    var lines := SummaryLines(high, med, low);
    SummaryLinesHead(high, med, low);
    var joined := Join(lines, "\n");
    assert joined[0] == 'E';
    StripKeepsHead(joined);
    assert NothingRelevant[0] == 'N';
  }

  /** The summary falls back to the fixed "nothing relevant" text exactly
      when every email is classified IGNORAR (including when there are no
      emails at all). */
  lemma SummaryEmptyIffAllIgnored(classified: seq<ClassifiedEmail>)
    ensures SummaryText(classified) == NothingRelevant
            <==> forall i :: 0 <= i < |classified| ==> classified[i].priority == Ignorar
  {
    var kept := Relevant(classified);
    if kept != [] {
      var items := ItemsOf(classified);
      ItemsNonEmpty(kept);
      ItemsAreRelevant(kept);
      SomeSection(items);
      RenderNotNothing(WithPriority(items, Alta), WithPriority(items, Media), WithPriority(items, Baixa));
    }
  }
}
