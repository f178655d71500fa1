/**
 * The chat/feature table of `ubotvk/database.py`: one row per chat, holding the
 * list of features that were switched on in that chat, in the order they were
 * switched on.  The SQLite file becomes a sequence of rows in insertion order;
 * the JSON text column becomes the list it encodes.
 */
module Store {
  import opened Wrappers

  datatype Row = Row(chatId: int, features: seq<string>)

  /** The exceptions the table operations raise. */
  datatype StoreError =
    | ChatAlreadyKnown       // ValueError from add_chat
    | UnknownChat            // TypeError: `fetchone()` found no row and returned None
    | FeatureAlreadyEnabled  // ValueError from add_feature
    | FeatureNotEnabled      // ValueError from remove_feature

  predicate NoDup<T(==)>(s: seq<T>) {
    forall i, j :: 0 <= i < j < |s| ==> s[i] != s[j]
  }

  /** `x` occurs in `s` at some position before an occurrence of `y`. */
  predicate Before<T(==)>(s: seq<T>, x: T, y: T) {
    exists a, b :: 0 <= a < b < |s| && s[a] == x && s[b] == y
  }

  /** `r` lists its elements in the order they have in `s`, each pair at two distinct positions of `s`. */
  predicate InOrderOf<T(==)>(r: seq<T>, s: seq<T>) {
    forall i, j :: 0 <= i < j < |r| ==> Before(s, r[i], r[j])
  }

  lemma InOrderNoDup<T>(r: seq<T>, s: seq<T>)
    requires InOrderOf(r, s) && NoDup(s)
    ensures NoDup(r)
  {
    forall i, j | 0 <= i < j < |r| ensures r[i] != r[j] {
      assert Before(s, r[i], r[j]);
    }
  }

  /** Extending `s` at its end keeps every order `r` had in it. */
  lemma InOrderGrow<T>(r: seq<T>, s: seq<T>, x: T)
    requires InOrderOf(r, s)
    ensures InOrderOf(r, s + [x])
  {
    var t := s + [x];
    forall i, j | 0 <= i < j < |r| ensures Before(t, r[i], r[j]) {
      assert Before(s, r[i], r[j]);
      var a, b :| 0 <= a < b < |s| && s[a] == r[i] && s[b] == r[j];
      assert t[a] == r[i] && t[b] == r[j];
    }
  }

  /** An element taken from the end of `s + [x]` comes after everything taken from `s`. */
  lemma InOrderSnoc<T>(r: seq<T>, s: seq<T>, x: T)
    requires InOrderOf(r, s) && forall y :: y in r ==> y in s
    ensures InOrderOf(r + [x], s + [x])
  {
    InOrderGrow(r, s, x);
    var t := s + [x];
    forall i, j | 0 <= i < j < |r + [x]| ensures Before(t, (r + [x])[i], (r + [x])[j]) {
      if j == |r| {
        assert r[i] in s;
        var a :| 0 <= a < |s| && s[a] == r[i];
        assert t[a] == (r + [x])[i] && t[|s|] == (r + [x])[j];
      } else {
        assert (r + [x])[i] == r[i] && (r + [x])[j] == r[j];
      }
    }
  }

  /** An element taken from the front of `[x] + s` comes before everything taken from `s`. */
  lemma InOrderCons<T>(x: T, r: seq<T>, s: seq<T>)
    requires InOrderOf(r, s) && forall y :: y in r ==> y in s
    ensures InOrderOf([x] + r, [x] + s)
    ensures InOrderOf(r, [x] + s)
  {
    var t := [x] + s;
    forall i, j | 0 <= i < j < |r| ensures Before(t, r[i], r[j]) {
      assert Before(s, r[i], r[j]);
      var a, b :| 0 <= a < b < |s| && s[a] == r[i] && s[b] == r[j];
      assert t[a + 1] == r[i] && t[b + 1] == r[j];
    }
    forall i, j | 0 <= i < j < |[x] + r| ensures Before(t, ([x] + r)[i], ([x] + r)[j]) {
      if i == 0 {
        assert ([x] + r)[j] == r[j - 1] && r[j - 1] in s;
        var b :| 0 <= b < |s| && s[b] == r[j - 1];
        assert t[0] == ([x] + r)[i] && t[b + 1] == ([x] + r)[j];
      } else {
        assert ([x] + r)[i] == r[i - 1] && ([x] + r)[j] == r[j - 1];
      }
    }
  }

  lemma InOrderOfTail<T>(r: seq<T>, s: seq<T>)
    requires r != [] && InOrderOf(r, s)
    ensures InOrderOf(r[1..], s)
  {
    forall i, j | 0 <= i < j < |r[1..]| ensures Before(s, r[1..][i], r[1..][j]) {
      assert r[1..][i] == r[i + 1] && r[1..][j] == r[j + 1];
    }
  }

  /**
   * The order pins the list down: two lists that hold the same elements in
   * the order of the same duplicate-free `s` are equal.
   */
  lemma {:induction false} InOrderUnique<T>(r1: seq<T>, r2: seq<T>, s: seq<T>)
    requires NoDup(s) && InOrderOf(r1, s) && InOrderOf(r2, s)
    requires forall x :: x in r1 <==> x in r2
    ensures r1 == r2
    decreases |r1|
  {
    InOrderNoDup(r1, s);
    InOrderNoDup(r2, s);
    assert r2 == [] || r2[0] in r1;
    if r1 != [] {
      assert r1[0] in r2 && r2[0] in r1;
      assert r1[0] == r2[0];
      var t1, t2 := r1[1..], r2[1..];
      InOrderOfTail(r1, s);
      InOrderOfTail(r2, s);
      assert r1 == [r1[0]] + t1 && r2 == [r2[0]] + t2;
      assert forall x :: x in t1 <==> x in t2 by {
        forall x ensures x in t1 <==> x in t2 {
          assert x in r1 <==> x == r1[0] || x in t1;
          assert x in r2 <==> x == r2[0] || x in t2;
        }
      }
      InOrderUnique(t1, t2, s);
    }
  }

  predicate HasChat(rows: seq<Row>, c: int) {
    exists i :: 0 <= i < |rows| && rows[i].chatId == c
  }

  /** One row per chat, and no feature twice in a row. */
  predicate TableValid(rows: seq<Row>) {
    && (forall i, j :: 0 <= i < j < |rows| ==> rows[i].chatId != rows[j].chatId)
    && (forall i :: 0 <= i < |rows| ==> NoDup(rows[i].features))
  }

  /** The row `SELECT ... WHERE chat_id=?` followed by `fetchone()` yields: the first one. */
  function Find(rows: seq<Row>, c: int): (r: Option<nat>)
    ensures r.None? <==> !HasChat(rows, c)
    ensures r.Some? ==> r.value < |rows| && rows[r.value].chatId == c
    ensures r.Some? ==> forall j :: 0 <= j < r.value ==> rows[j].chatId != c
  {
    if rows == [] then None
    else if rows[0].chatId == c then Some(0)
    else match Find(rows[1..], c)
      case None =>
        assert forall i :: 1 <= i < |rows| ==> rows[i] == rows[1..][i - 1];
        None
      case Some(k) => Some(k + 1)
  }

  /** The feature list stored for chat `c`, if the chat has a row. */
  function Persisted(rows: seq<Row>, c: int): (r: Option<seq<string>>)
    ensures r.Some? <==> HasChat(rows, c)
    ensures r.Some? ==> exists i :: 0 <= i < |rows| && rows[i] == Row(c, r.value)
  {
    match Find(rows, c)
    case None => None
    case Some(i) => Some(rows[i].features)
  }

  /** `UPDATE features SET enabled_features=? WHERE chat_id=?`: every row of chat `c` gets `fs`. */
  function SetFeatures(rows: seq<Row>, c: int, fs: seq<string>): (r: seq<Row>)
    ensures |r| == |rows|
    ensures forall i :: 0 <= i < |rows| ==> r[i].chatId == rows[i].chatId
    ensures forall i :: 0 <= i < |rows| && rows[i].chatId == c ==> r[i].features == fs
    ensures forall i :: 0 <= i < |rows| && rows[i].chatId != c ==> r[i] == rows[i]
  {
    seq(|rows|, i requires 0 <= i < |rows| => if rows[i].chatId == c then Row(c, fs) else rows[i])
  }

  /** The position of the first occurrence of `x` in `s`: Python's `s.index(x)`. */
  function FirstIndex<T(==)>(s: seq<T>, x: T): (i: nat)
    requires x in s
    ensures i < |s| && s[i] == x
    ensures forall j :: 0 <= j < i ==> s[j] != x
  {
    if s[0] == x then 0 else FirstIndex(s[1..], x) + 1
  }

  /** Python's `list.remove`: drops the first occurrence and keeps the rest in order. */
  function RemoveFirst<T(==)>(s: seq<T>, x: T): (r: seq<T>)
    requires x in s
    ensures |r| == |s| - 1
  {
    if s[0] == x then s[1..] else [s[0]] + RemoveFirst(s[1..], x)
  }

  /** The result is `s` with exactly the position of the first `x` cut out. */
  lemma {:induction false} RemoveFirstIsSlice<T>(s: seq<T>, x: T)
    requires x in s
    ensures RemoveFirst(s, x) == s[..FirstIndex(s, x)] + s[FirstIndex(s, x) + 1..]
  {
    if s[0] != x {
      var t := s[1..];
      assert x in t;
      RemoveFirstIsSlice(t, x);
      var k := FirstIndex(t, x);
      assert FirstIndex(s, x) == k + 1;
      SliceCons(s, k);
    }
  }

  lemma SliceCons<T>(s: seq<T>, k: nat)
    requires k + 1 < |s|
    ensures [s[0]] + (s[1..][..k] + s[1..][k + 1..]) == s[..k + 1] + s[k + 2..]
  {
    assert s[..k + 1] == [s[0]] + s[1..][..k];
    assert s[k + 2..] == s[1..][k + 1..];
  }

  /** Exactly one `x` goes, and nothing else. */
  lemma RemoveFirstCounts<T>(s: seq<T>, x: T)
    requires x in s
    ensures multiset(RemoveFirst(s, x)) == multiset(s) - multiset{x}
  {
    RemoveFirstIsSlice(s, x);
    var i := FirstIndex(s, x);
    assert s == s[..i] + [x] + s[i + 1..];
  }

  lemma {:induction false} RemoveFirstOfAppended<T>(s: seq<T>, x: T)
    requires x !in s
    ensures RemoveFirst(s + [x], x) == s
  {
    if s != [] {
      assert (s + [x])[1..] == s[1..] + [x];
      RemoveFirstOfAppended(s[1..], x);
    }
  }

  lemma {:induction false} RemoveFirstKeepsNoDup<T>(s: seq<T>, x: T)
    requires x in s && NoDup(s)
    ensures NoDup(RemoveFirst(s, x)) && x !in RemoveFirst(s, x)
  {
    if s[0] != x {
      assert NoDup(s[1..]) by {
        forall i, j | 0 <= i < j < |s[1..]| ensures s[1..][i] != s[1..][j] {
          assert s[1..][i] == s[i + 1] && s[1..][j] == s[j + 1];
        }
      }
      RemoveFirstKeepsNoDup(s[1..], x);
      var t := RemoveFirst(s[1..], x);
      RemoveFirstCounts(s[1..], x);
      assert s[0] !in t by {
        assert s[0] !in s[1..];
        assert multiset(s[1..])[s[0]] == 0;
        assert multiset(t) <= multiset(s[1..]);
        assert multiset(t)[s[0]] == 0;
      }
    }
  }

  lemma {:induction false} RemoveFirstMembers<T>(s: seq<T>, x: T)
    requires x in s
    ensures forall y :: y in RemoveFirst(s, x) ==> y in s
    ensures forall y :: y in s && y != x ==> y in RemoveFirst(s, x)
  {
    if s[0] != x {
      RemoveFirstMembers(s[1..], x);
    }
  }

  // ---------------------------------------------------------------------
  // add_chat, add_feature, remove_feature on a snapshot of the table
  // ---------------------------------------------------------------------

  /** add_chat: a new row with an empty list, unless the chat already has one. */
  function AddChatRows(rows: seq<Row>, c: int): (r: Result<seq<Row>, StoreError>)
    ensures r.Failure? <==> HasChat(rows, c)
    ensures r.Failure? ==> r.error == ChatAlreadyKnown
    ensures r.Success? ==> r.value == rows + [Row(c, [])] && Persisted(r.value, c) == Some([])
  {
    if Find(rows, c).Some? then Failure(ChatAlreadyKnown)
    else
      var t := rows + [Row(c, [])];
      assert Find(t, c) == Some(|rows|) by { FindAppended(rows, Row(c, [])); }
      Success(t)
  }

  lemma {:induction false} FindAppended(rows: seq<Row>, row: Row)
    requires !HasChat(rows, row.chatId)
    ensures Find(rows + [row], row.chatId) == Some(|rows|)
  {
    var t := rows + [row];
    assert HasChat(t, row.chatId) by { assert t[|rows|] == row; }
    assert forall j :: 0 <= j < |rows| ==> t[j] == rows[j];
  }

  /**
   * add_feature: appends `f` to chat `c`'s list; fails when `c` has no row or
   * `f` is already in its list, and writes nothing then.
   */
  function AddFeatureRows(rows: seq<Row>, c: int, f: string): (r: Result<seq<Row>, StoreError>)
    ensures !HasChat(rows, c) ==> r == Failure(UnknownChat)
    ensures HasChat(rows, c) && f in Persisted(rows, c).value ==> r == Failure(FeatureAlreadyEnabled)
    ensures HasChat(rows, c) && f !in Persisted(rows, c).value ==>
      && r.Success?
      && Persisted(r.value, c) == Some(Persisted(rows, c).value + [f])
      && SameChats(rows, r.value)
      && (forall x :: x != c ==> Persisted(r.value, x) == Persisted(rows, x))
      && (forall i :: 0 <= i < |rows| && rows[i].chatId != c ==> r.value[i] == rows[i])
  {
    match Find(rows, c)
    case None => Failure(UnknownChat)
    case Some(i) =>
      var features := rows[i].features;
      if f in features then Failure(FeatureAlreadyEnabled)
      else
        var t := SetFeatures(rows, c, features + [f]);
        FindSameChats(rows, t, c);
        SetFeaturesOthers(rows, c, features + [f]);
        Success(t)
  }

  /**
   * remove_feature: drops the first `f` from chat `c`'s list; fails when `c`
   * has no row or `f` is not in its list, and writes nothing then.
   */
  function RemoveFeatureRows(rows: seq<Row>, c: int, f: string): (r: Result<seq<Row>, StoreError>)
    ensures !HasChat(rows, c) ==> r == Failure(UnknownChat)
    ensures HasChat(rows, c) && f !in Persisted(rows, c).value ==> r == Failure(FeatureNotEnabled)
    ensures HasChat(rows, c) && f in Persisted(rows, c).value ==>
      && r.Success?
      && Persisted(r.value, c) == Some(RemoveFirst(Persisted(rows, c).value, f))
      && SameChats(rows, r.value)
      && (forall x :: x != c ==> Persisted(r.value, x) == Persisted(rows, x))
      && (forall i :: 0 <= i < |rows| && rows[i].chatId != c ==> r.value[i] == rows[i])
  {
    match Find(rows, c)
    case None => Failure(UnknownChat)
    case Some(i) =>
      var features := rows[i].features;
      if |features| > 0 && f in features then
        var t := SetFeatures(rows, c, RemoveFirst(features, f));
        FindSameChats(rows, t, c);
        SetFeaturesOthers(rows, c, RemoveFirst(features, f));
        Success(t)
      else Failure(FeatureNotEnabled)
  }

  /** Two tables with the same chat in every position. */
  predicate SameChats(a: seq<Row>, b: seq<Row>) {
    |a| == |b| && forall i :: 0 <= i < |a| ==> a[i].chatId == b[i].chatId
  }

  lemma {:induction false} FindSameChats(a: seq<Row>, b: seq<Row>, c: int)
    requires SameChats(a, b)
    ensures Find(a, c) == Find(b, c)
  {
    if a != [] && a[0].chatId != c {
      assert SameChats(a[1..], b[1..]) by {
        forall i | 0 <= i < |a[1..]| ensures a[1..][i].chatId == b[1..][i].chatId {
          assert a[1..][i] == a[i + 1] && b[1..][i] == b[i + 1];
        }
      }
      FindSameChats(a[1..], b[1..], c);
    }
  }

  lemma SameChatsHasChat(a: seq<Row>, b: seq<Row>, x: int)
    requires SameChats(a, b)
    ensures HasChat(a, x) <==> HasChat(b, x)
  {
    FindSameChats(a, b, x);
  }

  /** Rewriting chat `c`'s rows leaves every other chat's stored list as it was. */
  lemma SetFeaturesOthers(rows: seq<Row>, c: int, fs: seq<string>)
    ensures forall x :: x != c ==> Persisted(SetFeatures(rows, c, fs), x) == Persisted(rows, x)
  {
    var t := SetFeatures(rows, c, fs);
    forall x | x != c ensures Persisted(t, x) == Persisted(rows, x) {
      FindSameChats(rows, t, x);
    }
  }

  lemma {:induction false} FindAppendedOther(rows: seq<Row>, row: Row, x: int)
    requires x != row.chatId
    ensures Find(rows + [row], x) == Find(rows, x)
  {
    if rows != [] {
      assert (rows + [row])[1..] == rows[1..] + [row];
      FindAppendedOther(rows[1..], row, x);
    }
  }

  lemma HasChatAppended(rows: seq<Row>, row: Row, x: int)
    ensures HasChat(rows + [row], x) <==> HasChat(rows, x) || x == row.chatId
  {
    var t := rows + [row];
    assert t[|rows|] == row;
    assert forall i :: 0 <= i < |rows| ==> t[i] == rows[i];
  }

  /** A new row changes no other chat's stored list. */
  lemma AppendedOthers(rows: seq<Row>, row: Row)
    ensures forall x :: x != row.chatId ==> Persisted(rows + [row], x) == Persisted(rows, x)
  {
    forall x | x != row.chatId ensures Persisted(rows + [row], x) == Persisted(rows, x) {
      FindAppendedOther(rows, row, x);
      assert forall i :: 0 <= i < |rows| ==> (rows + [row])[i] == rows[i];
    }
  }

  // ---------------------------------------------------------------------
  // The table invariant and the round trip
  // ---------------------------------------------------------------------

  /** Under the invariant the row of `c` is the only one with that chat id. */
  lemma OnlyRow(rows: seq<Row>, c: int, i: int)
    requires TableValid(rows) && 0 <= i < |rows| && rows[i].chatId == c
    ensures Find(rows, c) == Some(i)
  {
  }

  lemma AddChatKeepsValid(rows: seq<Row>, c: int)
    requires TableValid(rows)
    ensures AddChatRows(rows, c).Success? ==> TableValid(AddChatRows(rows, c).value)
  {
    if !HasChat(rows, c) {
      var t := rows + [Row(c, [])];
      forall i, j | 0 <= i < j < |t| ensures t[i].chatId != t[j].chatId {
        if j == |rows| {
          assert t[i] == rows[i];
        }
      }
    }
  }

  lemma AddFeatureKeepsValid(rows: seq<Row>, c: int, f: string)
    requires TableValid(rows)
    ensures AddFeatureRows(rows, c, f).Success? ==> TableValid(AddFeatureRows(rows, c, f).value)
  {
    var r := AddFeatureRows(rows, c, f);
    if r.Success? {
      var i := Find(rows, c).value;
      var fs := rows[i].features;
      forall k | 0 <= k < |rows| ensures NoDup(r.value[k].features) {
        if rows[k].chatId == c {
          OnlyRow(rows, c, k);
          assert r.value[k].features == fs + [f];
        }
      }
    }
  }

  lemma RemoveFeatureKeepsValid(rows: seq<Row>, c: int, f: string)
    requires TableValid(rows)
    ensures RemoveFeatureRows(rows, c, f).Success? ==> TableValid(RemoveFeatureRows(rows, c, f).value)
  {
    var r := RemoveFeatureRows(rows, c, f);
    if r.Success? {
      var i := Find(rows, c).value;
      var fs := rows[i].features;
      RemoveFirstKeepsNoDup(fs, f);
      forall k | 0 <= k < |rows| ensures NoDup(r.value[k].features) {
        if rows[k].chatId == c {
          OnlyRow(rows, c, k);
        }
      }
    }
  }

  /** After a successful remove_feature the chat no longer has the feature: a list holds no feature twice. */
  lemma RemovedIsGone(rows: seq<Row>, c: int, f: string)
    requires TableValid(rows)
    requires RemoveFeatureRows(rows, c, f).Success?
    ensures f !in Persisted(RemoveFeatureRows(rows, c, f).value, c).value
  {
    RemoveFirstKeepsNoDup(Persisted(rows, c).value, f);
  }

  /** add_feature(c, f) then remove_feature(c, f) on a chat lacking `f` restores the table. */
  lemma AddRemoveRoundTrip(rows: seq<Row>, c: int, f: string)
    requires TableValid(rows) && HasChat(rows, c) && f !in Persisted(rows, c).value
    ensures AddFeatureRows(rows, c, f).Success?
    ensures RemoveFeatureRows(AddFeatureRows(rows, c, f).value, c, f) == Success(rows)
  {
    var i := Find(rows, c).value;
    var fs := rows[i].features;
    var t := AddFeatureRows(rows, c, f).value;
    assert Persisted(t, c) == Some(fs + [f]);
    RemoveFirstOfAppended(fs, f);
    var u := RemoveFeatureRows(t, c, f).value;
    assert Persisted(u, c) == Some(fs);
    forall k | 0 <= k < |rows| ensures u[k] == rows[k] {
      if rows[k].chatId == c {
        OnlyRow(rows, c, k);
        var j := Find(u, c).value;
        FindSameChats(rows, u, c);
        assert j == k;
      }
    }
    assert u == rows;
  }

  // ---------------------------------------------------------------------
  // get_chats and get_feature_chats_dict
  // ---------------------------------------------------------------------

  /** The distinct chat ids in order of their first row: the keys of the per-chat dict. */
  function Keys(rows: seq<Row>): (r: seq<int>)
    ensures NoDup(r)
    ensures forall x :: x in r <==> HasChat(rows, x)
    ensures forall i, j :: 0 <= i < j < |r| ==> FirstRow(rows, r[i]) < FirstRow(rows, r[j])
  {
    if rows == [] then []
    else
      var front := rows[..|rows| - 1];
      var row := rows[|rows| - 1];
      var k := Keys(front);
      assert rows == front + [row];
      assert forall i :: 0 <= i < |front| ==> front[i] == rows[i];
      FindAppendedKnown(front, row);
      if row.chatId in k then k
      else
        assert Find(rows, row.chatId) == Some(|front|) by { FindAppended(front, row); }
        k + [row.chatId]
  }

  /** The position of the first row of a chat of the table. */
  function FirstRow(rows: seq<Row>, c: int): (i: nat)
    requires HasChat(rows, c)
    ensures i < |rows| && rows[i].chatId == c
    ensures forall j :: 0 <= j < i ==> rows[j].chatId != c
  {
    Find(rows, c).value
  }

  /** A row appended at the end changes no first row of a chat already in the table. */
  lemma FindAppendedKnown(rows: seq<Row>, row: Row)
    ensures forall x :: HasChat(rows, x) ==> Find(rows + [row], x) == Find(rows, x)
  {
    var t := rows + [row];
    forall x | HasChat(rows, x) ensures Find(t, x) == Find(rows, x) {
      var a := Find(rows, x).value;
      assert t[a] == rows[a];
      var b := Find(t, x).value;
      assert b <= a;
      assert t[b] == rows[b];
    }
  }

  lemma {:induction false} KeysOfValid(rows: seq<Row>)
    requires TableValid(rows)
    ensures |Keys(rows)| == |rows|
    ensures forall i :: 0 <= i < |rows| ==> Keys(rows)[i] == rows[i].chatId
  {
    if rows != [] {
      var front := rows[..|rows| - 1];
      assert forall i :: 0 <= i < |front| ==> front[i] == rows[i];
      KeysOfValid(front);
      assert !HasChat(front, rows[|rows| - 1].chatId);
    }
  }

  /** No row after position `i` belongs to chat `c`. */
  predicate NoneAfter(rows: seq<Row>, c: int, i: nat) {
    forall j :: i < j < |rows| ==> rows[j].chatId != c
  }

  /** The list the per-chat dict holds for `c`: from the last row of `c`, as later rows overwrite. */
  function LastFeatures(rows: seq<Row>, c: int): (r: seq<string>)
    requires HasChat(rows, c)
    ensures exists i :: 0 <= i < |rows| && rows[i] == Row(c, r) && NoneAfter(rows, c, i)
  {
    var front := rows[..|rows| - 1];
    if rows[|rows| - 1].chatId == c then
      assert NoneAfter(rows, c, |rows| - 1);
      rows[|rows| - 1].features
    else
      assert HasChat(front, c) by {
        var i :| 0 <= i < |rows| && rows[i].chatId == c;
        assert front[i] == rows[i];
      }
      var r := LastFeatures(front, c);
      var i :| 0 <= i < |front| && front[i] == Row(c, r) && NoneAfter(front, c, i);
      assert rows[i] == front[i];
      assert NoneAfter(rows, c, i) by {
        forall j | i < j < |rows| ensures rows[j].chatId != c {
          if j < |front| {
            assert rows[j] == front[j];
          }
        }
      }
      r
  }

  lemma LastFeaturesOfValid(rows: seq<Row>, c: int)
    requires TableValid(rows) && HasChat(rows, c)
    ensures LastFeatures(rows, c) == Persisted(rows, c).value
  {
  }

  /** The comprehension `[chat for chat in keys if feature in dict[chat]]`. */
  function Select(keys: seq<int>, rows: seq<Row>, defaults: seq<string>, f: string): (r: seq<int>)
    requires forall k :: k in keys ==> HasChat(rows, k)
    ensures forall x :: x in r <==> x in keys && f in defaults + LastFeatures(rows, x)
    ensures NoDup(keys) ==> NoDup(r)
    ensures InOrderOf(r, keys)
  {
    if keys == [] then []
    else
      var tail := Select(keys[1..], rows, defaults, f);
      assert NoDup(keys) ==> NoDup(keys[1..]) && keys[0] !in keys[1..] by {
        if NoDup(keys) {
          forall i, j | 0 <= i < j < |keys[1..]| ensures keys[1..][i] != keys[1..][j] {
            assert keys[1..][i] == keys[i + 1] && keys[1..][j] == keys[j + 1];
          }
        }
      }
      assert keys == [keys[0]] + keys[1..];
      assert forall y :: y in tail ==> y in keys[1..];
      InOrderCons(keys[0], tail, keys[1..]);
      if f in defaults + LastFeatures(rows, keys[0]) then [keys[0]] + tail else tail
  }

  /** The chats in which `f` is on: the list get_feature_chats_dict holds for `f`. */
  function ChatsWith(rows: seq<Row>, defaults: seq<string>, f: string): (r: seq<int>)
    ensures NoDup(r)
    ensures InOrderOf(r, Keys(rows))
    ensures forall x :: x in r <==> HasChat(rows, x) && f in defaults + LastFeatures(rows, x)
  {
    Select(Keys(rows), rows, defaults, f)
  }

  /** get_feature_chats_dict: exactly the installed features as keys. */
  function FeatureChats(rows: seq<Row>, defaults: seq<string>, installed: seq<string>): (m: map<string, seq<int>>)
    ensures m.Keys == set f | f in installed
    ensures forall f :: f in m ==> NoDup(m[f]) && InOrderOf(m[f], Keys(rows))
    ensures forall f, x :: f in m ==>
      (x in m[f] <==> HasChat(rows, x) && f in defaults + LastFeatures(rows, x))
  {
    map f | f in installed :: ChatsWith(rows, defaults, f)
  }

  /** A default feature is on in every chat of the table, in table order. */
  lemma DefaultEverywhere(rows: seq<Row>, defaults: seq<string>, f: string)
    requires f in defaults
    ensures ChatsWith(rows, defaults, f) == Keys(rows)
  {
    SelectAll(Keys(rows), rows, defaults, f);
  }

  lemma {:induction false} SelectAll(keys: seq<int>, rows: seq<Row>, defaults: seq<string>, f: string)
    requires forall k :: k in keys ==> HasChat(rows, k)
    requires f in defaults
    ensures Select(keys, rows, defaults, f) == keys
  {
    if keys != [] {
      SelectAll(keys[1..], rows, defaults, f);
    }
  }

  /** A feature that is not a default and is persisted nowhere maps to `[]`. */
  lemma EnabledNowhere(rows: seq<Row>, defaults: seq<string>, f: string)
    requires f !in defaults
    requires forall i :: 0 <= i < |rows| ==> f !in rows[i].features
    ensures ChatsWith(rows, defaults, f) == []
  {
    forall x | HasChat(rows, x) ensures f !in defaults + LastFeatures(rows, x) {
      var i :| 0 <= i < |rows| && rows[i] == Row(x, LastFeatures(rows, x));
    }
    SelectNone(Keys(rows), rows, defaults, f);
  }

  lemma {:induction false} SelectNone(keys: seq<int>, rows: seq<Row>, defaults: seq<string>, f: string)
    requires forall k :: k in keys ==> HasChat(rows, k) && f !in defaults + LastFeatures(rows, k)
    ensures Select(keys, rows, defaults, f) == []
  {
    if keys != [] {
      SelectNone(keys[1..], rows, defaults, f);
    }
  }

  /** Under the invariant, the list for `f` is the table's chats, in row order, whose default-plus-stored list holds `f`. */
  lemma ChatsWithOfValid(rows: seq<Row>, defaults: seq<string>, f: string)
    requires TableValid(rows)
    ensures forall x :: x in ChatsWith(rows, defaults, f) <==>
      HasChat(rows, x) && f in defaults + Persisted(rows, x).value
    ensures InOrderOf(ChatsWith(rows, defaults, f), ChatIds(rows))
  {
    forall x | HasChat(rows, x) {
      LastFeaturesOfValid(rows, x);
    }
    KeysOfValid(rows);
    assert Keys(rows) == ChatIds(rows);
  }

  /** The chat id of every row, in row order. */
  function ChatIds(rows: seq<Row>): (r: seq<int>)
    ensures |r| == |rows| && forall i :: 0 <= i < |rows| ==> r[i] == rows[i].chatId
  {
    seq(|rows|, i requires 0 <= i < |rows| => rows[i].chatId)
  }

  /**
   * On a valid table the list for a feature is determined: any list of the
   * chats with the feature on, in row order, is that list.
   */
  lemma ChatsWithIsTheOrderedList(rows: seq<Row>, defaults: seq<string>, f: string, l: seq<int>)
    requires TableValid(rows)
    requires forall x :: x in l <==> HasChat(rows, x) && f in defaults + Persisted(rows, x).value
    requires InOrderOf(l, ChatIds(rows))
    ensures ChatsWith(rows, defaults, f) == l
  {
    ChatsWithOfValid(rows, defaults, f);
    assert NoDup(ChatIds(rows));
    forall x ensures x in ChatsWith(rows, defaults, f) <==> x in l {
    }
    InOrderUnique(ChatsWith(rows, defaults, f), l, ChatIds(rows));
  }

  /** A chat just added by add_chat has exactly the default features on. */
  lemma NewChatHasDefaults(rows: seq<Row>, defaults: seq<string>, c: int, f: string)
    requires TableValid(rows) && !HasChat(rows, c)
    ensures c in ChatsWith(AddChatRows(rows, c).value, defaults, f) <==> f in defaults
  {
    var t := AddChatRows(rows, c).value;
    AddChatKeepsValid(rows, c);
    ChatsWithOfValid(t, defaults, f);
  }

  // ---------------------------------------------------------------------
  // The table as an object
  // ---------------------------------------------------------------------

  /** The table after an operation and the outcome the caller sees. */
  function Commit(rows: seq<Row>, r: Result<seq<Row>, StoreError>): (seq<Row>, Outcome<StoreError>)
  {
    match r
    case Success(t) => (t, Pass)
    case Failure(e) => (rows, Fail(e))
  }

  class Database {
    /** Config.DEFAULT_FEATURES. */
    const defaults: seq<string>
    /** The rows of the `features` table, in insertion order. */
    var rows: seq<Row>

    ghost predicate Valid()
      reads this
    {
      TableValid(rows)
    }

    /** Opens a table that already holds `stored` (empty for a fresh file). */
    constructor (defaults: seq<string>, stored: seq<Row>)
      ensures this.defaults == defaults && rows == stored
    {
      this.defaults := defaults;
      rows := stored;
    }

    function GetFeatureChatsDict(installed: seq<string>): (m: map<string, seq<int>>)
      reads this
      ensures m.Keys == set f | f in installed
      ensures forall f :: f in m ==> NoDup(m[f]) && InOrderOf(m[f], Keys(rows))
      ensures forall f, x :: f in m ==>
        (x in m[f] <==> HasChat(rows, x) && f in defaults + LastFeatures(rows, x))
    {
      FeatureChats(rows, defaults, installed)
    }

    /** get_chats: every chat of the table once (Python's set order is not modelled). */
    function GetChats(): (r: seq<int>)
      reads this
      ensures NoDup(r)
      ensures forall x :: x in r <==> HasChat(rows, x)
    {
      Keys(rows)
    }

    method AddChat(c: int) returns (res: Outcome<StoreError>)
      modifies this
      ensures (rows, res) == Commit(old(rows), AddChatRows(old(rows), c))
      ensures old(Valid()) ==> Valid()
    {
      if Valid() {
        AddChatKeepsValid(rows, c);
      }
      var sel := Find(rows, c);
      if sel.None? {
        rows := rows + [Row(c, [])];
        res := Pass;
      } else {
        res := Fail(ChatAlreadyKnown);
      }
    }

    method AddFeature(c: int, f: string) returns (res: Outcome<StoreError>)
      modifies this
      ensures (rows, res) == Commit(old(rows), AddFeatureRows(old(rows), c, f))
      ensures old(Valid()) ==> Valid()
    {
      if Valid() {
        AddFeatureKeepsValid(rows, c, f);
      }
      var sel := Find(rows, c);
      if sel.None? {
        return Fail(UnknownChat);
      }
      var features := rows[sel.value].features;
      if f in features {
        return Fail(FeatureAlreadyEnabled);
      }
      features := features + [f];
      rows := SetFeatures(rows, c, features);
      res := Pass;
    }

    method RemoveFeature(c: int, f: string) returns (res: Outcome<StoreError>)
      modifies this
      ensures (rows, res) == Commit(old(rows), RemoveFeatureRows(old(rows), c, f))
      ensures old(Valid()) ==> Valid()
    {
      if Valid() {
        RemoveFeatureKeepsValid(rows, c, f);
      }
      var sel := Find(rows, c);
      if sel.None? {
        return Fail(UnknownChat);
      }
      var features := rows[sel.value].features;
      if |features| > 0 && f in features {
        features := RemoveFirst(features, f);
      } else {
        return Fail(FeatureNotEnabled);
      }
      rows := SetFeatures(rows, c, features);
      res := Pass;
    }
  }
}
