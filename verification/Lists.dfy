// Lists of object numbers, the value of an rt_list_t (see module RtLists for the links).
module Lists {

  ghost predicate NoDup(ws: seq<nat>) {
    forall i, j :: 0 <= i < j < |ws| ==> ws[i] != ws[j]
  }

  // rt_list_remove of t, wherever it is.
  function Without(ws: seq<nat>, t: nat): seq<nat> {
    if ws == [] then []
    else if ws[0] == t then ws[1..]
    else [ws[0]] + Without(ws[1..], t)
  }

  lemma {:induction false} WithoutMembers(ws: seq<nat>, t: nat)
    requires NoDup(ws)
    ensures forall x :: x in Without(ws, t) <==> x in ws && x != t
    ensures t !in ws ==> Without(ws, t) == ws
  {
    if ws != [] {
      assert ws == [ws[0]] + ws[1..];
      if ws[0] == t {
        assert forall j :: 0 <= j < |ws[1..]| ==> ws[1..][j] == ws[j + 1] != t;
      } else {
        WithoutMembers(ws[1..], t);
      }
    }
  }

  lemma {:induction false} WithoutNoDup(ws: seq<nat>, t: nat)
    requires NoDup(ws)
    ensures NoDup(Without(ws, t))
    ensures |Without(ws, t)| == if t in ws then |ws| - 1 else |ws|
  {
    WithoutMembers(ws, t);
    if ws != [] && ws[0] != t {
      var rest := ws[1..];
      assert forall j :: 0 <= j < |rest| ==> rest[j] == ws[j + 1];
      WithoutNoDup(ws[1..], t);
      WithoutMembers(ws[1..], t);
      var w := Without(ws[1..], t);
      forall j | 0 <= j < |w|
        ensures ws[0] != w[j]
      {
        assert w[j] in rest;
        var k :| 0 <= k < |rest| && rest[k] == w[j];
      }
    }
  }

  // A list without duplicates drawn from another list is no longer than it.
  lemma {:induction false} NoDupShorter(a: seq<nat>, b: seq<nat>)
    requires NoDup(a) && forall i :: 0 <= i < |a| ==> a[i] in b
    ensures |a| <= |b|
  {
    if a != [] {
      var l := |a| - 1;
      var k :| 0 <= k < |b| && b[k] == a[l];
      var b' := b[..k] + b[k + 1..];
      forall i | 0 <= i < l
        ensures a[..l][i] in b'
      {
        var j :| 0 <= j < |b| && b[j] == a[i];
        assert b'[if j < k then j else j - 1] == a[i];
      }
      NoDupShorter(a[..l], b');
    }
  }

  ghost function Members(list: seq<nat>): set<nat> {
    set x | x in list
  }

  ghost function Below(n: nat): (r: set<nat>)
    ensures |r| == n && forall x: nat :: x in r <==> x < n
  {
    if n == 0 then {} else Below(n - 1) + {n - 1}
  }

  lemma {:induction false} MembersCount(list: seq<nat>)
    requires NoDup(list)
    ensures |Members(list)| == |list|
  {
    if list != [] {
      var l := |list| - 1;
      assert list == list[..l] + [list[l]];
      MembersCount(list[..l]);
      assert Members(list) == Members(list[..l]) + {list[l]};
    }
  }

  lemma {:induction false} WithoutAt(list: seq<nat>, k: nat)
    requires NoDup(list) && k < |list|
    ensures Without(list, list[k]) == list[..k] + list[k + 1..]
  {
    if k > 0 {
      assert list[1..][k - 1] == list[k] && list[0] != list[k];
      WithoutAt(list[1..], k - 1);
      assert list[..k] == [list[0]] + list[1..][..k - 1];
    }
  }

  // t alone has left the list, wherever it was.
  ghost predicate LeftAlone(ws: seq<nat>, t: nat, ws': seq<nat>) {
    if t in ws then exists p: nat :: p < |ws| && ws[p] == t && ws' == ws[..p] + ws[p + 1..]
    else ws' == ws
  }

  lemma WithoutLeaves(ws: seq<nat>, t: nat)
    requires NoDup(ws)
    ensures LeftAlone(ws, t, Without(ws, t)) && t !in Without(ws, t)
  {
    WithoutMembers(ws, t);
    if t in ws {
      var p: nat :| p < |ws| && ws[p] == t;
      WithoutAt(ws, p);
    }
  }
}
