/** The library-files page (Client/Pages/LibraryFiles/LibraryFiles.razor.cs): the status
    bar normalisation, the name-column width and the "select unprocessed" shortcut. The
    HTTP calls are left out; translations are a parameter. */
module LibraryFilesPage {
  import opened Common
  import opened Models

  /** One entry of the status bar. */
  datatype LibraryStatus = LibraryStatus(status: FileStatus, name: string, count: int)

  /** The status bar order. Duplicate is not listed. */
  const StatusOrder: seq<FileStatus> :=
    [Unprocessed, OutOfSchedule, Processing, Processed, FlowNotFound, ProcessingFailed]

  /** List.IndexOf: the first position of `x`, or -1. */
  function IndexOf<T(==)>(xs: seq<T>, x: T): (r: int)
    ensures -1 <= r < |xs|
    ensures r >= 0 ==> xs[r] == x && forall j :: 0 <= j < r ==> xs[j] != x
    ensures r == -1 <==> x !in xs
  {
    if xs == [] then -1
    else if xs[0] == x then 0
    else
      var k := IndexOf(xs[1..], x);
      if k == -1 then -1 else k + 1
  }

  /** The sort key of RefreshStatus: the position in StatusOrder, 100 for unlisted statuses. */
  function SortKey(s: LibraryStatus): int {
    var index := IndexOf(StatusOrder, s.status);
    if index >= 0 then index else 100
  }

  lemma SortKeyValues(s: LibraryStatus)
    ensures s.status == Unprocessed <==> SortKey(s) == 0
    ensures s.status == OutOfSchedule <==> SortKey(s) == 1
    ensures s.status == Processing <==> SortKey(s) == 2
    ensures s.status == Processed <==> SortKey(s) == 3
    ensures s.status == FlowNotFound <==> SortKey(s) == 4
    ensures s.status == ProcessingFailed <==> SortKey(s) == 5
    ensures s.status == Duplicate <==> SortKey(s) == 100
    ensures SortKey(s) in StatusKeys
  {
  }

  /** Every key SortKey can produce, ascending. */
  const StatusKeys: seq<int> := [0, 1, 2, 3, 4, 5, 100]

  predicate HasStatus(data: seq<LibraryStatus>, s: FileStatus) {
    exists x :: x in data && x.status == s
  }

  /** The data after the first loop of RefreshStatus: a default entry is appended for each
      listed status that is missing, except FlowNotFound. */
  function WithDefaults(data: seq<LibraryStatus>, order: seq<FileStatus>): (r: seq<LibraryStatus>)
  {
    if order == [] then data
    else
      var d := WithDefaults(data, order[..|order| - 1]);
      var s := order[|order| - 1];
      if HasStatus(d, s) || s == FlowNotFound then d else d + [LibraryStatus(s, "", 0)]
  }

  /** The defaults loop only appends, and afterwards every listed status but FlowNotFound is
      present; FlowNotFound is present only when it was already. */
  lemma {:induction false} WithDefaultsPresence(data: seq<LibraryStatus>, order: seq<FileStatus>)
    ensures |data| <= |WithDefaults(data, order)| && WithDefaults(data, order)[..|data|] == data
    ensures forall s :: s in order && s != FlowNotFound ==> HasStatus(WithDefaults(data, order), s)
    ensures HasStatus(WithDefaults(data, order), FlowNotFound) <==> HasStatus(data, FlowNotFound)
    ensures forall x :: x in WithDefaults(data, order) && x !in data ==> x.status in order && x.count == 0
  {
    if order != [] {
      var init := order[..|order| - 1];
      WithDefaultsPresence(data, init);
      var d := WithDefaults(data, init);
      var s := order[|order| - 1];
      if !(HasStatus(d, s) || s == FlowNotFound) {
        assert (d + [LibraryStatus(s, "", 0)])[..|data|] == d[..|data|];
      }
      assert forall t :: t in order ==> t in init || t == s;
    }
  }

  /** The entries with one key, in their original order. */
  function WithKey(xs: seq<LibraryStatus>, key: LibraryStatus -> int, k: int): (r: seq<LibraryStatus>)
    ensures forall x :: x in r ==> x in xs && key(x) == k
  {
    if xs == [] then []
    else WithKey(xs[..|xs| - 1], key, k) + (if key(xs[|xs| - 1]) == k then [xs[|xs| - 1]] else [])
  }

  function WithoutKey(xs: seq<LibraryStatus>, key: LibraryStatus -> int, k: int): (r: seq<LibraryStatus>)
    ensures forall x :: x in r ==> x in xs && key(x) != k
  {
    if xs == [] then []
    else WithoutKey(xs[..|xs| - 1], key, k) + (if key(xs[|xs| - 1]) != k then [xs[|xs| - 1]] else [])
  }

  /** A stable sort by key, for keys drawn from `keys`: the entries of each key in turn. */
  function SortByKeys(xs: seq<LibraryStatus>, key: LibraryStatus -> int, keys: seq<int>): seq<LibraryStatus>
    decreases keys
  {
    if keys == [] then []
    else WithKey(xs, key, keys[0]) + SortByKeys(WithoutKey(xs, key, keys[0]), key, keys[1..])
  }

  /** data.OrderBy(SortKey): a stable sort. */
  function OrderByStatus(xs: seq<LibraryStatus>): seq<LibraryStatus> {
    SortByKeys(xs, SortKey, StatusKeys)
  }

  predicate SortedByKey(xs: seq<LibraryStatus>, key: LibraryStatus -> int) {
    forall i, j :: 0 <= i < j < |xs| ==> key(xs[i]) <= key(xs[j])
  }

  lemma {:induction false} SplitByKey(xs: seq<LibraryStatus>, key: LibraryStatus -> int, k: int)
    ensures multiset(xs) == multiset(WithKey(xs, key, k)) + multiset(WithoutKey(xs, key, k))
  {
    if xs != [] {
      var init := xs[..|xs| - 1];
      var last := xs[|xs| - 1];
      SplitByKey(init, key, k);
      MultisetSplitLast(xs);
      if key(last) == k {
        assert WithKey(xs, key, k) == WithKey(init, key, k) + [last];
        assert WithoutKey(xs, key, k) == WithoutKey(init, key, k);
      } else {
        assert WithKey(xs, key, k) == WithKey(init, key, k);
        assert WithoutKey(xs, key, k) == WithoutKey(init, key, k) + [last];
      }
    }
  }

  /** For strictly ascending keys covering every key present, the result is a permutation
      of the input and holds only keys from `keys`. */
  lemma {:induction false} SortByKeysPermutes(xs: seq<LibraryStatus>, key: LibraryStatus -> int, keys: seq<int>)
    requires forall x :: x in xs ==> key(x) in keys
    ensures multiset(SortByKeys(xs, key, keys)) == multiset(xs)
    ensures forall x :: x in SortByKeys(xs, key, keys) ==> key(x) in keys
    decreases keys
  {
    KeysCoverStatuses(xs, key, keys);
    if keys != [] {
      var k := keys[0];
      var rest := WithoutKey(xs, key, k);
      assert forall x :: x in rest ==> key(x) in keys[1..] by {
        forall x | x in rest ensures key(x) in keys[1..] {
          var i :| 0 <= i < |keys| && keys[i] == key(x);
          assert i != 0;
          assert keys[1..][i - 1] == keys[i];
        }
      }
      SortByKeysPermutes(rest, key, keys[1..]);
      SplitByKey(xs, key, k);
      var a := WithKey(xs, key, k);
      var b := SortByKeys(rest, key, keys[1..]);
      assert multiset(a + b) == multiset(a) + multiset(b);
      assert forall x :: x in b ==> key(x) in keys[1..];
    }
  }

  lemma KeysCoverStatuses(xs: seq<LibraryStatus>, key: LibraryStatus -> int, keys: seq<int>)
    requires forall x :: x in xs ==> key(x) in keys
    ensures xs != [] ==> keys != []
  {
    if xs != [] {
      assert key(xs[0]) in keys;
    }
  }

  /** For strictly ascending keys the result is sorted by key. */
  lemma {:induction false} SortByKeysSorted(xs: seq<LibraryStatus>, key: LibraryStatus -> int, keys: seq<int>)
    requires forall i, j :: 0 <= i < j < |keys| ==> keys[i] < keys[j]
    ensures SortedByKey(SortByKeys(xs, key, keys), key)
    ensures forall x :: x in SortByKeys(xs, key, keys) ==> exists i :: 0 <= i < |keys| && keys[i] == key(x)
    decreases keys
  {
    if keys != [] {
      var k := keys[0];
      var rest := WithoutKey(xs, key, k);
      var tail := keys[1..];
      SortByKeysSorted(rest, key, tail);
      var a := WithKey(xs, key, k);
      var b := SortByKeys(rest, key, tail);
      forall y | y in b ensures key(y) > k && exists i :: 0 <= i < |keys| && keys[i] == key(y) {
        var i :| 0 <= i < |tail| && tail[i] == key(y);
        assert keys[i + 1] == key(y);
      }
      SortedConcat(a, b, key, k);
      forall x | x in a + b ensures exists i :: 0 <= i < |keys| && keys[i] == key(x) {
        if x in a {
          assert keys[0] == key(x);
        }
      }
    }
  }

  lemma SortedConcat(a: seq<LibraryStatus>, b: seq<LibraryStatus>, key: LibraryStatus -> int, k: int)
    requires forall x :: x in a ==> key(x) == k
    requires forall y :: y in b ==> key(y) > k
    requires SortedByKey(b, key)
    ensures SortedByKey(a + b, key)
  {
    forall i, j | 0 <= i < j < |a + b|
      ensures key((a + b)[i]) <= key((a + b)[j])
    {
      if j < |a| {
        assert (a + b)[i] in a && (a + b)[j] in a;
      } else if i < |a| {
        assert (a + b)[i] in a && (a + b)[j] == b[j - |a|] && b[j - |a|] in b;
      } else {
        assert (a + b)[i] == b[i - |a|] && (a + b)[j] == b[j - |a|];
      }
    }
  }

  /** The status bar is sorted by its key and is a permutation of its input. */
  lemma OrderByStatusCorrect(xs: seq<LibraryStatus>)
    ensures multiset(OrderByStatus(xs)) == multiset(xs)
    ensures SortedByKey(OrderByStatus(xs), SortKey)
  {
    KeysListed(xs);
    StatusKeysAscending();
    SortByKeysPermutes(xs, SortKey, StatusKeys);
    SortByKeysSorted(xs, SortKey, StatusKeys);
  }

  lemma KeysListed(xs: seq<LibraryStatus>)
    ensures forall x :: x in xs ==> SortKey(x) in StatusKeys
  {
    forall x | x in xs ensures SortKey(x) in StatusKeys {
      SortKeyValues(x);
    }
  }

  lemma StatusKeysAscending()
    ensures forall i, j :: 0 <= i < j < |StatusKeys| ==> StatusKeys[i] < StatusKeys[j]
  {
  }

  /** The count shown: the count of the first entry with the selected status, or 0. */
  function CountFor(statuses: seq<LibraryStatus>, selected: FileStatus): (r: int)
    ensures (forall x :: x in statuses ==> x.status != selected) ==> r == 0
    ensures statuses != [] && statuses[0].status == selected ==> r == statuses[0].count
  {
    if statuses == [] then 0
    else if statuses[0].status == selected then statuses[0].count
    else CountFor(statuses[1..], selected)
  }

  /** The count comes from the first matching entry. */
  lemma {:induction false} CountForFirstMatch(statuses: seq<LibraryStatus>, selected: FileStatus, i: nat)
    requires i < |statuses| && statuses[i].status == selected
    requires forall j :: 0 <= j < i ==> statuses[j].status != selected
    ensures CountFor(statuses, selected) == statuses[i].count
  {
    if i > 0 {
      CountForFirstMatch(statuses[1..], selected, i - 1);
    }
  }

  /** The width of the name column in "ch": 20 for no data, else the longest name (halved on
      mobile) clamped to [20, 120]. A null name counts as 0. */
  function NameWidth(data: Option<seq<Option<string>>>, mobile: bool): (w: int)
    ensures 20 <= w <= 120
    ensures data.None? || data.value == [] ==> w == 20
    ensures data.Some? ==> forall i :: 0 <= i < |data.value| ==> Clamp(NameLengths(data.value, mobile)[i]) <= w
    ensures data.Some? && data.value != [] ==>
      exists i :: 0 <= i < |data.value| && w == Clamp(NameLengths(data.value, mobile)[i])
  {
    if data.None? || data.value == [] then 20
    else Clamp(MaxOf(NameLengths(data.value, mobile)))
  }

  function NameLengths(names: seq<Option<string>>, mobile: bool): (r: seq<int>)
    ensures |r| == |names|
  {
    seq(|names|, i requires 0 <= i < |names| =>
      match names[i]
      case None => 0
      case Some(n) => if mobile then |n| / 2 else |n|)
  }

  /** Math.Min(120, Math.Max(20, n)). */
  function Clamp(n: int): int {
    if n < 20 then 20 else if n > 120 then 120 else n
  }

  /** The width is the longest (possibly halved) name, raised to 20 when every name is
      shorter and cut to 120 when the longest is wider. */
  lemma NameWidthIsLongestName(names: seq<Option<string>>, mobile: bool, i: nat)
    requires i < |names|
    requires forall j :: 0 <= j < |names| ==> NameLengths(names, mobile)[j] <= NameLengths(names, mobile)[i]
    ensures var longest := NameLengths(names, mobile)[i];
      && (longest < 20 ==> NameWidth(Some(names), mobile) == 20)
      && (longest > 120 ==> NameWidth(Some(names), mobile) == 120)
      && (20 <= longest <= 120 ==> NameWidth(Some(names), mobile) == longest)
  {
    var m := MaxOf(NameLengths(names, mobile));
  }

  /** Halving on mobile never widens the column. */
  lemma {:induction false} MobileNeverWider(data: Option<seq<Option<string>>>)
    ensures NameWidth(data, true) <= NameWidth(data, false)
  {
    if data.Some? && data.value != [] {
      var desktop := NameLengths(data.value, false);
      var mobile := NameLengths(data.value, true);
      var k :| 0 <= k < |mobile| && mobile[k] == MaxOf(mobile);
      assert mobile[k] <= desktop[k];
    }
  }

  class LibraryFilesPage {
    var selectedStatus: FileStatus
    var statuses: seq<LibraryStatus>
    var count: int
    /** NameMinWidth is this number followed by "ch". */
    var nameMinWidth: int
    var title: string
    var lblLibraryFiles: string
    /** Refresh requests issued (each reloads the list over HTTP). */
    var refreshes: nat

    constructor (lblLibraryFiles: string, unprocessedName: string)
      ensures selectedStatus == Unprocessed && statuses == [] && count == 0 && nameMinWidth == 20
      ensures this.lblLibraryFiles == lblLibraryFiles && title == lblLibraryFiles + ": " + unprocessedName
      ensures refreshes == 0
    {
      selectedStatus := Unprocessed;
      statuses := [];
      count := 0;
      nameMinWidth := 20;
      this.lblLibraryFiles := lblLibraryFiles;
      title := lblLibraryFiles + ": " + unprocessedName;
      refreshes := 0;
    }

    /** Completes the status list with defaults, names every entry, replaces the status bar
        by the stably sorted list and picks the count of the selected status. */
    method RefreshStatus(data: seq<LibraryStatus>, nameOf: FileStatus -> string)
      modifies this`statuses, this`count
      ensures statuses == OrderByStatus(Named(WithDefaults(data, StatusOrder), nameOf))
      ensures count == CountFor(statuses, selectedStatus)
    {
      var list := Completed(data);
      var named := Named(list, nameOf);
      statuses := OrderByStatus(named);
      count := CountFor(statuses, selectedStatus);
    }

    /** Selecting Unprocessed again is a no-op; otherwise it is selected, the title names it
        and the list is refreshed. */
    method SelectUnprocessed()
      modifies this`selectedStatus, this`title, this`refreshes
      ensures old(selectedStatus) == Unprocessed ==>
        selectedStatus == old(selectedStatus) && title == old(title) && refreshes == old(refreshes)
      ensures old(selectedStatus) != Unprocessed ==>
        && selectedStatus == Unprocessed
        && title == lblLibraryFiles + ": " + FirstNameOf(statuses, Unprocessed)
        && refreshes == old(refreshes) + 1
    {
      if selectedStatus == Unprocessed {
        return;
      }
      var name := FirstNameOf(statuses, Unprocessed);
      selectedStatus := Unprocessed;
      title := lblLibraryFiles + ": " + name;
      refreshes := refreshes + 1;
    }

    /** PostLoad: recompute the name column width. */
    method PostLoad(data: Option<seq<Option<string>>>, mobile: bool)
      modifies this`nameMinWidth
      ensures nameMinWidth == NameWidth(data, mobile)
    {
      nameMinWidth := NameWidth(data, mobile);
    }
  }

  /** The first loop of RefreshStatus: a default entry for each missing listed status. */
  method Completed(data: seq<LibraryStatus>) returns (list: seq<LibraryStatus>)
    ensures list == WithDefaults(data, StatusOrder)
  {
    list := data;
    var k := 0;
    while k < |StatusOrder|
      invariant 0 <= k <= |StatusOrder|
      invariant list == WithDefaults(data, StatusOrder[..k])
    {
      var s := StatusOrder[k];
      assert StatusOrder[..k + 1][..k] == StatusOrder[..k];
      var present := Contains(list, s);
      if !present && s != FlowNotFound {
        list := list + [LibraryStatus(s, "", 0)];
      }
      k := k + 1;
    }
    assert StatusOrder[..k] == StatusOrder;
  }

  /** The `Any(x => x.Status == s)` test of the first loop. */
  method Contains(list: seq<LibraryStatus>, s: FileStatus) returns (present: bool)
    ensures present <==> HasStatus(list, s)
  {
    present := false;
    var j := 0;
    while j < |list|
      invariant 0 <= j <= |list|
      invariant present <==> exists x :: x in list[..j] && x.status == s
    {
      assert list[..j + 1] == list[..j] + [list[j]];
      if list[j].status == s {
        present := true;
      }
      j := j + 1;
    }
    assert list[..j] == list;
  }

  /** The second loop of RefreshStatus: every entry gets its translated name. */
  function Named(data: seq<LibraryStatus>, nameOf: FileStatus -> string): (r: seq<LibraryStatus>)
    ensures |r| == |data|
    ensures forall i :: 0 <= i < |data| ==> r[i] == data[i].(name := nameOf(data[i].status))
  {
    seq(|data|, i requires 0 <= i < |data| => data[i].(name := nameOf(data[i].status)))
  }

  /** The name of the first entry with a status; a missing entry gives null, which the title
      concatenation renders as "". */
  function FirstNameOf(statuses: seq<LibraryStatus>, s: FileStatus): (r: string)
    ensures (forall x :: x in statuses ==> x.status != s) ==> r == ""
    ensures statuses != [] && statuses[0].status == s ==> r == statuses[0].name
  {
    if statuses == [] then ""
    else if statuses[0].status == s then statuses[0].name
    else FirstNameOf(statuses[1..], s)
  }

  /** A permutation has the same length and the same statuses. */
  lemma PermutationKeepsStatuses(a: seq<LibraryStatus>, b: seq<LibraryStatus>, s: FileStatus)
    requires multiset(a) == multiset(b)
    ensures |a| == |b|
    ensures HasStatus(a, s) <==> HasStatus(b, s)
  {
    assert |multiset(a)| == |multiset(b)|;
    if HasStatus(a, s) {
      var x :| x in a && x.status == s;
      assert x in multiset(b);
    }
    if HasStatus(b, s) {
      var x :| x in b && x.status == s;
      assert x in multiset(a);
    }
  }

  /** Naming changes no status. */
  lemma NamedKeepsStatuses(data: seq<LibraryStatus>, nameOf: FileStatus -> string, s: FileStatus)
    ensures HasStatus(Named(data, nameOf), s) <==> HasStatus(data, s)
  {
    var named := Named(data, nameOf);
    if HasStatus(data, s) {
      var x :| x in data && x.status == s;
      var i :| 0 <= i < |data| && data[i] == x;
      assert named[i] in named;
    }
    if HasStatus(named, s) {
      var y :| y in named && y.status == s;
      var i :| 0 <= i < |named| && named[i] == y;
      assert data[i] in data;
    }
  }

  /** After a refresh every listed status except FlowNotFound is on the status bar, and
      FlowNotFound is there exactly when the server reported it. */
  lemma {:induction false} RefreshedStatusPresence(data: seq<LibraryStatus>, nameOf: FileStatus -> string)
    ensures var bar := OrderByStatus(Named(WithDefaults(data, StatusOrder), nameOf));
      && (forall s :: s in StatusOrder && s != FlowNotFound ==> HasStatus(bar, s))
      && (HasStatus(bar, FlowNotFound) <==> HasStatus(data, FlowNotFound))
      && |bar| == |WithDefaults(data, StatusOrder)|
  {
    var full := WithDefaults(data, StatusOrder);
    var named := Named(full, nameOf);
    var bar := OrderByStatus(named);
    WithDefaultsPresence(data, StatusOrder);
    OrderByStatusCorrect(named);
    forall s ensures HasStatus(bar, s) <==> HasStatus(full, s) {
      PermutationKeepsStatuses(bar, named, s);
      NamedKeepsStatuses(full, nameOf, s);
    }
    PermutationKeepsStatuses(bar, named, FlowNotFound);
  }
}
