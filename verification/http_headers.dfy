/**
 * Header storage of the HTTP message object: a multi-valued dictionary whose
 * keys compare without case.  Setting headers either replaces the whole
 * dictionary or merges new values into it (existing values first, then the
 * new ones, duplicates compared without case dropped); reading a header
 * joins its values with ", ".
 *
 * The dictionary is a map from the lower-cased key to its values in
 * insertion order.  The order of keys and the spelling a key was first
 * stored with are not modelled.
 */
module HttpHeaders {
  import opened Strings

  datatype Option<T> = None | Some(value: T)

  /**
   * An M_hash_dict_t created CASECMP | KEYS_ORDERED | MULTI_VALUE | MULTI_CASECMP:
   * every key is stored in its folded (lower-case) spelling, so spellings
   * that differ only in case share one entry.
   */
  type Headers = m: map<string, seq<string>> | forall k :: k in m ==> Lower(k) == k

  /** The values stored under a key as the dictionary holds it (lower case). */
  function Get(d: Headers, k: string): seq<string>
  {
    if k in d then d[k] else []
  }

  /** The values of a header looked up by any spelling of its name. */
  function Values(d: Headers, key: string): seq<string>
  {
    Get(d, Lower(key))
  }

  // ---------------------------------------------------------------------
  // Case-insensitive de-duplication (an M_list_str created CASECMP | SET)

  /** Some element of `s` equals `v` ignoring case. */
  predicate HasCaseEq(s: seq<string>, v: string)
  {
    exists i :: 0 <= i < |s| && CaseEq(s[i], v)
  }

  /** No two elements of `s` are equal ignoring case. */
  predicate CaseDistinct(s: seq<string>)
  {
    forall i, j :: 0 <= i < j < |s| ==> !CaseEq(s[i], s[j])
  }

  /**
   * The first occurrence of every value of `s`, compared ignoring case, in
   * the order of `s`: an element is kept exactly when no earlier one equals
   * it.
   */
  function Dedup(s: seq<string>): seq<string>
  {
    if s == [] then []
    else
      var init := s[..|s| - 1];
      if HasCaseEq(init, s[|s| - 1]) then Dedup(init) else Dedup(init) + [s[|s| - 1]]
  }

  /** M_list_str_insert on a case-insensitive set list: add `v` unless an equal value is there. */
  function SetInsert(l: seq<string>, v: string): (r: seq<string>)
    ensures HasCaseEq(l, v) ==> r == l
    ensures !HasCaseEq(l, v) ==> r == l + [v]
  {
    if exists i | 0 <= i < |l| :: CaseEq(l[i], v) then l else l + [v]
  }

  lemma HasCaseEqSnoc(s: seq<string>, x: string, v: string)
    ensures HasCaseEq(s + [x], v) <==> HasCaseEq(s, v) || CaseEq(x, v)
  {
    var t := s + [x];
    if HasCaseEq(t, v) {
      var i :| 0 <= i < |t| && CaseEq(t[i], v);
      if i < |s| {
        assert s[i] == t[i];
      }
    }
    if HasCaseEq(s, v) {
      var i :| 0 <= i < |s| && CaseEq(s[i], v);
      assert t[i] == s[i];
    }
    if CaseEq(x, v) {
      assert t[|s|] == x;
    }
  }

  /** De-duplication loses no value: the same values are present, ignoring case. */
  lemma {:induction false} DedupCovers(s: seq<string>, v: string)
    ensures HasCaseEq(Dedup(s), v) <==> HasCaseEq(s, v)
  {
    if s != [] {
      var init, last := s[..|s| - 1], s[|s| - 1];
      assert s == init + [last];
      DedupCovers(init, v);
      HasCaseEqSnoc(init, last, v);
      if HasCaseEq(init, last) {
        DedupCovers(init, last);
      } else {
        HasCaseEqSnoc(Dedup(init), last, v);
      }
    }
  }

  /** Adding one value to a de-duplicated list is what the set insert does. */
  lemma DedupSnoc(s: seq<string>, v: string)
    ensures Dedup(s + [v]) == SetInsert(Dedup(s), v)
  {
    assert (s + [v])[..|s|] == s;
    DedupCovers(s, v);
  }

  /** The result holds no two values equal ignoring case. */
  lemma {:induction false} DedupDistinct(s: seq<string>)
    ensures CaseDistinct(Dedup(s))
  {
    if s != [] {
      var init, last := s[..|s| - 1], s[|s| - 1];
      DedupDistinct(init);
      if !HasCaseEq(init, last) {
        var r := Dedup(init) + [last];
        DedupCovers(init, last);
        forall i, j | 0 <= i < j < |r| ensures !CaseEq(r[i], r[j]) {
          assert r[i] == Dedup(init)[i];
        }
      }
    }
  }

  /** Every value of the result is one of the input values, unchanged. */
  lemma {:induction false} DedupFromInput(s: seq<string>)
    ensures forall x :: x in Dedup(s) ==> x in s
  {
    if s != [] {
      var init := s[..|s| - 1];
      DedupFromInput(init);
      assert forall x :: x in init ==> x in s;
    }
  }

  /** A list with no case-duplicates is left as it is. */
  lemma {:induction false} DedupOfDistinct(s: seq<string>)
    requires CaseDistinct(s)
    ensures Dedup(s) == s
  {
    if s != [] {
      var init, last := s[..|s| - 1], s[|s| - 1];
      assert CaseDistinct(init);
      DedupOfDistinct(init);
      forall i | 0 <= i < |init| ensures !CaseEq(init[i], last) {
        assert s[i] == init[i];
      }
      assert init + [last] == s;
    }
  }

  /** The de-duplicated prefix is kept as the start of the result: earlier values come first. */
  lemma {:induction false} DedupPrefix(a: seq<string>, b: seq<string>)
    ensures |Dedup(a)| <= |Dedup(a + b)|
    ensures Dedup(a + b)[..|Dedup(a)|] == Dedup(a)
  {
    if b != [] {
      var init := b[..|b| - 1];
      assert (a + b)[..|a + b| - 1] == a + init;
      DedupPrefix(a, init);
    } else {
      assert a + b == a;
    }
  }

  /** Values that are all already present (ignoring case) add nothing. */
  lemma {:induction false} DedupAbsorbs(a: seq<string>, b: seq<string>)
    requires forall j :: 0 <= j < |b| ==> HasCaseEq(a, b[j])
    ensures Dedup(a + b) == Dedup(a)
  {
    if b != [] {
      var init, last := b[..|b| - 1], b[|b| - 1];
      assert (a + b)[..|a + b| - 1] == a + init;
      assert (a + b)[|a + b| - 1] == last;
      DedupAbsorbs(a, init);
      var i :| 0 <= i < |a| && CaseEq(a[i], last);
      assert (a + init)[i] == a[i];
    } else {
      assert a + b == a;
    }
  }

  // ---------------------------------------------------------------------
  // Merging and replacing

  /** The merged values of one key: the current values, then the new ones, without case-duplicates. */
  function MergedValues(current: seq<string>, added: seq<string>): seq<string>
  {
    Dedup(current + added)
  }

  /** The result of merging: current values first, new values after, nothing lost, nothing repeated. */
  lemma MergedValuesSpec(current: seq<string>, added: seq<string>)
    ensures CaseDistinct(MergedValues(current, added))
    ensures forall v :: HasCaseEq(MergedValues(current, added), v) <==> HasCaseEq(current, v) || HasCaseEq(added, v)
    ensures forall x :: x in MergedValues(current, added) ==> x in current || x in added
    ensures CaseDistinct(current) ==>
      |current| <= |MergedValues(current, added)| && MergedValues(current, added)[..|current|] == current
  {
    DedupDistinct(current + added);
    forall v ensures HasCaseEq(MergedValues(current, added), v) <==> HasCaseEq(current, v) || HasCaseEq(added, v) {
      DedupCovers(current + added, v);
      if HasCaseEq(current + added, v) {
        var i :| 0 <= i < |current + added| && CaseEq((current + added)[i], v);
        if i < |current| {
          assert current[i] == (current + added)[i];
        } else {
          assert added[i - |current|] == (current + added)[i];
        }
      }
      if HasCaseEq(current, v) {
        var i :| 0 <= i < |current| && CaseEq(current[i], v);
        assert (current + added)[i] == current[i];
      }
      if HasCaseEq(added, v) {
        var i :| 0 <= i < |added| && CaseEq(added[i], v);
        assert (current + added)[|current| + i] == added[i];
      }
    }
    DedupFromInput(current + added);
    if CaseDistinct(current) {
      DedupPrefix(current, added);
      DedupOfDistinct(current);
    }
  }

  /** Merging the same values a second time changes nothing. */
  lemma MergedValuesIdempotent(current: seq<string>, added: seq<string>)
    ensures MergedValues(MergedValues(current, added), added) == MergedValues(current, added)
  {
    var m := MergedValues(current, added);
    forall j | 0 <= j < |added| ensures HasCaseEq(m, added[j]) {
      DedupCovers(current + added, added[j]);
      assert (current + added)[|current| + j] == added[j];
      assert CaseEq(added[j], added[j]);
    }
    DedupAbsorbs(m, added);
    DedupDistinct(current + added);
    DedupOfDistinct(m);
  }

  /** The keys that `added` gives at least one value. */
  function UpdatedKeys(added: Headers): set<string>
  {
    set k | k in added && |added[k]| > 0
  }

  /**
   * The dictionary after merging `added` into `cur`: each key with new values
   * holds the merged values, every other key is as it was.
   */
  function Merged(cur: Headers, added: Headers): (r: Headers)
    ensures r.Keys == cur.Keys + UpdatedKeys(added)
  {
    map k | k in cur.Keys + UpdatedKeys(added) ::
      if k in UpdatedKeys(added) then MergedValues(Get(cur, k), added[k]) else cur[k]
  }

  /** Keys that the new headers leave without values keep their values. */
  lemma MergedKeepsOthers(cur: Headers, added: Headers, k: string)
    requires k !in UpdatedKeys(added)
    ensures Get(Merged(cur, added), k) == Get(cur, k)
  {
  }

  /**
   * Merging is case-insensitive in the key: whatever spelling a header is
   * looked up by, it holds the merged values when the new headers give it
   * values, and its current values otherwise.
   */
  lemma MergedAnySpelling(cur: Headers, added: Headers, key: string)
    ensures Values(added, key) != [] ==>
      Values(Merged(cur, added), key) == MergedValues(Values(cur, key), Values(added, key))
    ensures Values(added, key) == [] ==> Values(Merged(cur, added), key) == Values(cur, key)
  {
    var k := Lower(key);
    if Values(added, key) != [] {
      assert k in UpdatedKeys(added);
    } else {
      assert k !in UpdatedKeys(added);
    }
  }

  /** Merging the same headers twice is the same as merging them once. */
  lemma MergedIdempotent(cur: Headers, added: Headers)
    ensures Merged(Merged(cur, added), added) == Merged(cur, added)
  {
    var m := Merged(cur, added);
    forall k | k in UpdatedKeys(added) ensures MergedValues(Get(m, k), added[k]) == m[k] {
      MergedValuesIdempotent(Get(cur, k), added[k]);
    }
  }

  /**
   * `h` is `cur` with the keys of `done` merged in: the state of the merge
   * loop after it has visited those keys.
   */
  ghost predicate MergedUpTo(h: Headers, cur: Headers, added: Headers, done: set<string>)
  {
    (forall k :: k in h <==> k in cur || (k in done && k in UpdatedKeys(added))) &&
    (forall k :: k in h ==>
      h[k] == if k in done && k in UpdatedKeys(added) then MergedValues(Get(cur, k), added[k]) else cur[k])
  }

  /** Merged values of at least one new value are never empty. */
  lemma MergedValuesNonEmpty(current: seq<string>, added: seq<string>)
    requires |added| > 0
    ensures |MergedValues(current, added)| > 0
  {
    DedupCovers(current + added, added[0]);
    assert (current + added)[|current|] == added[0];
    assert CaseEq(added[0], added[0]);
  }

  lemma MergedUpToStep(h: Headers, cur: Headers, added: Headers, done: set<string>, key: string)
    requires MergedUpTo(h, cur, added, done)
    requires key in added && key !in done
    ensures Get(h, key) == Get(cur, key)
    ensures |added[key]| > 0 ==>
      MergedUpTo(h[key := MergedValues(Get(cur, key), added[key])], cur, added, done + {key})
    ensures |added[key]| == 0 ==> MergedUpTo(h, cur, added, done + {key})
  {
    if |added[key]| > 0 {
      MergedUpToUpdated(h, cur, added, done, key);
    } else {
      MergedUpToSkipped(h, cur, added, done, key);
    }
  }

  /** Visiting a key with new values stores its merged values. */
  lemma MergedUpToUpdated(h: Headers, cur: Headers, added: Headers, done: set<string>, key: string)
    requires MergedUpTo(h, cur, added, done)
    requires key in added && key !in done && |added[key]| > 0
    ensures MergedUpTo(h[key := MergedValues(Get(cur, key), added[key])], cur, added, done + {key})
  {
    assert key in UpdatedKeys(added);
    var v := MergedValues(Get(cur, key), added[key]);
    var h' := h[key := v];
    forall k ensures k in h' <==> k in cur || (k in done + {key} && k in UpdatedKeys(added)) {
    }
    forall k | k in h' ensures h'[k] ==
      if k in done + {key} && k in UpdatedKeys(added) then MergedValues(Get(cur, k), added[k]) else cur[k]
    {
      if k != key {
        assert h'[k] == h[k];
      }
    }
  }

  /** Visiting a key without new values changes nothing. */
  lemma MergedUpToSkipped(h: Headers, cur: Headers, added: Headers, done: set<string>, key: string)
    requires MergedUpTo(h, cur, added, done)
    requires key in added && key !in done && |added[key]| == 0
    ensures MergedUpTo(h, cur, added, done + {key})
  {
    assert key !in UpdatedKeys(added);
    forall k ensures (k in done + {key} && k in UpdatedKeys(added)) == (k in done && k in UpdatedKeys(added)) {
    }
  }

  /** Before any key is visited the dictionary is the current one. */
  lemma MergedUpToNone(cur: Headers, added: Headers)
    ensures MergedUpTo(cur, cur, added, {})
  {
  }

  lemma MergedUpToAll(h: Headers, cur: Headers, added: Headers)
    requires MergedUpTo(h, cur, added, added.Keys)
    ensures h == Merged(cur, added)
  {
    var m := Merged(cur, added);
    assert h.Keys == m.Keys;
    forall k | k in h ensures h[k] == m[k] {
    }
  }

  /** The `M_hash_dict_t **cur_headers` cell that setting headers replaces or updates. */
  class HeaderCell {
    var headers: Headers

    constructor (initial: Headers)
      ensures headers == initial
    {
      headers := initial;
    }

    /** M_hash_dict_insert on a multi-value dictionary: append one value under any spelling of `key`. */
    method Insert(key: string, value: string)
      modifies this
      ensures headers == old(headers)[Lower(key) := Get(old(headers), Lower(key)) + [value]]
    {
      var k := Lower(key);
      LowerIdempotent(key);
      headers := headers[k := Get(headers, k) + [value]];
    }

    /** M_hash_dict_remove of `key`, then M_hash_dict_insert of each value of `l` in order. */
    method ReplaceValues(key: string, l: seq<string>)
      modifies this
      ensures l == [] ==> headers == old(headers) - {Lower(key)}
      ensures l != [] ==> headers == old(headers)[Lower(key) := l]
    {
      ghost var h0 := headers;
      headers := headers - {Lower(key)};
      for i := 0 to |l|
        invariant headers == if i == 0 then h0 - {Lower(key)} else h0[Lower(key) := l[..i]]
      {
        Insert(key, l[i]);
        assert l[..i + 1] == l[..i] + [l[i]];
      }
      assert l[..|l|] == l;
    }
  }

  /**
   * The loop body for one key in M_http_set_headers_int: gather the current
   * and then the new values into a case-insensitive set list.
   */
  method MergeValues(current: seq<string>, added: seq<string>) returns (l: seq<string>)
    ensures l == MergedValues(current, added)
  {
    l := [];
    for i := 0 to |current|
      invariant l == Dedup(current[..i])
    {
      DedupSnoc(current[..i], current[i]);
      assert current[..i + 1] == current[..i] + [current[i]];
      l := SetInsert(l, current[i]);
    }
    assert current + added[..0] == current[..|current|];
    for i := 0 to |added|
      invariant l == Dedup(current + added[..i])
    {
      DedupSnoc(current + added[..i], added[i]);
      assert current + added[..i + 1] == (current + added[..i]) + [added[i]];
      l := SetInsert(l, added[i]);
    }
    assert added[..|added|] == added;
  }

  /**
   * M_http_set_headers_int: without merge the cell gets a new dictionary with
   * exactly the new headers; with merge every key that has new values gets
   * the merged values, and a missing `added` changes nothing.
   */
  method SetHeaders(cell: HeaderCell, added: Option<Headers>, merge: bool)
    modifies cell
    ensures merge && added.None? ==> cell.headers == old(cell.headers)
    ensures !merge ==> cell.headers == (if added.Some? then added.value else map[])
    ensures merge && added.Some? ==> cell.headers == Merged(old(cell.headers), added.value)
  {
    if added.None? && merge {
      return;
    }
    if !merge {
      cell.headers := map[];
      if added.Some? {
        cell.headers := added.value;
      }
      return;
    }
    MergeAll(cell, added.value);
  }

  /** The merging branch: every key of the new headers is visited, in no particular order. */
  method MergeAll(cell: HeaderCell, incoming: Headers)
    modifies cell
    ensures cell.headers == Merged(old(cell.headers), incoming)
  {
    ghost var cur0 := cell.headers;
    var todo := incoming.Keys;
    ghost var done: set<string> := {};
    MergedUpToNone(cur0, incoming);
    while todo != {}
      invariant todo + done == incoming.Keys && todo !! done
      invariant MergedUpTo(cell.headers, cur0, incoming, done)
      decreases |todo|
    {
      var key :| key in todo;
      MergeEnumeratedKey(cell, cur0, incoming, done, key);
      todo := todo - {key};
      done := done + {key};
    }
    MergedUpToAll(cell.headers, cur0, incoming);
  }

  /** One key of the enumeration: visiting it extends the merged part of the dictionary by that key. */
  method MergeEnumeratedKey(cell: HeaderCell, ghost cur: Headers, incoming: Headers, ghost done: set<string>, key: string)
    requires MergedUpTo(cell.headers, cur, incoming, done)
    requires key in incoming && key !in done
    modifies cell
    ensures MergedUpTo(cell.headers, cur, incoming, done + {key})
  {
    assert Lower(key) == key;
    MergedUpToStep(cell.headers, cur, incoming, done, key);
    VisitKey(cell, key, incoming[key]);
  }

  /**
   * The enumeration of a multi-value dictionary yields a key once for each
   * of its values; every visit after the first finds the values merged
   * already and leaves them as they are.
   */
  method VisitKey(cell: HeaderCell, key: string, added: seq<string>)
    modifies cell
    ensures |added| == 0 ==> cell.headers == old(cell.headers)
    ensures |added| > 0 ==>
      cell.headers == old(cell.headers)[Lower(key) := MergedValues(Get(old(cell.headers), Lower(key)), added)]
  {
    ghost var h0 := cell.headers;
    ghost var merged := MergedValues(Get(h0, Lower(key)), added);
    for n := 0 to |added|
      invariant n == 0 ==> cell.headers == h0
      invariant n > 0 ==> cell.headers == h0[Lower(key) := merged]
    {
      if n > 0 {
        MergedValuesIdempotent(Get(h0, Lower(key)), added);
      }
      MergeKey(cell, key, added);
    }
  }

  /**
   * One step of the enumeration in M_http_set_headers_int: when the key has
   * new values, its values become the merged list, removed and re-inserted.
   */
  method MergeKey(cell: HeaderCell, key: string, added: seq<string>)
    modifies cell
    ensures |added| == 0 ==> cell.headers == old(cell.headers)
    ensures |added| > 0 ==>
      cell.headers == old(cell.headers)[Lower(key) := MergedValues(Get(old(cell.headers), Lower(key)), added)]
  {
    if |added| > 0 {
      var l := MergeValues(Get(cell.headers, Lower(key)), added);
      MergedValuesNonEmpty(Get(cell.headers, Lower(key)), added);
      cell.ReplaceValues(key, l);
    }
  }

  /**
   * The text of a header: nothing when it has no value, the value itself when
   * it has one, and all values in stored order joined with ", " otherwise.
   */
  function HeaderText(d: Headers, key: string): (r: Option<string>)
    ensures Values(d, key) == [] <==> r.None?
    ensures |Values(d, key)| == 1 ==> r == Some(Values(d, key)[0])
    ensures |Values(d, key)| >= 1 ==> r == Some(Join(Values(d, key), ", "))
  {
    var vals := Values(d, key);
    if |vals| == 0 then None else Some(Join(vals, ", "))
  }

  /** M_http_header_int: copy the values into a list, then join it. */
  method HeaderValue(d: Headers, key: string) returns (r: Option<string>)
    ensures r == HeaderText(d, key)
  {
    var vals := Values(d, key);
    if |vals| == 0 {
      return None;
    }
    if |vals| == 1 {
      return Some(vals[0]);
    }
    var l: seq<string> := [];
    for i := 0 to |vals|
      invariant l == vals[..i]
    {
      l := l + [vals[i]];
    }
    assert l == vals;
    r := Some(Join(l, ", "));
  }

  /** The values after the first with the space the separator puts before them. */
  function Spaced(vals: seq<string>): (r: seq<string>)
    ensures |r| == |vals|
    ensures forall i :: 0 <= i < |vals| ==> r[i] == " " + vals[i]
  {
    if vals == [] then [] else [" " + vals[0]] + Spaced(vals[1..])
  }

  lemma JoinPrependFirst(p: string, q: string, rest: seq<string>, sep: string)
    ensures Join([p + q] + rest, sep) == p + Join([q] + rest, sep)
  {
    if rest != [] {
      assert ([p + q] + rest)[1..] == rest;
      assert ([q] + rest)[1..] == rest;
    }
  }

  lemma {:induction false} JoinCommaSpace(vals: seq<string>)
    requires |vals| >= 1
    ensures Join(vals, ", ") == Join([vals[0]] + Spaced(vals[1..]), [','])
  {
    if |vals| > 1 {
      var rest := vals[1..];
      JoinCommaSpace(rest);
      assert Spaced(rest) == [" " + rest[0]] + Spaced(rest[1..]);
      JoinPrependFirst(" ", rest[0], Spaced(rest[1..]), [',']);
      assert ([vals[0]] + Spaced(rest))[1..] == Spaced(rest);
    }
  }

  /**
   * A joined header reads back by splitting on ',': the first value, then
   * each later value behind the space of the separator (when no value itself
   * holds a comma).
   */
  lemma JoinedHeaderSplits(vals: seq<string>)
    requires |vals| >= 1
    requires forall i :: 0 <= i < |vals| ==> Free(vals[i], ',')
    ensures Split(Join(vals, ", "), ',') == [vals[0]] + Spaced(vals[1..])
  {
    var parts := [vals[0]] + Spaced(vals[1..]);
    var joined := Join(vals, ", ");
    JoinCommaSpace(vals);
    assert joined == Join(parts, [',']);
    SpacedPartsFree(vals);
    SplitJoin(parts, ',');
    assert Split(Join(parts, [',']), ',') == parts;
  }

  /** Comma-free values stay comma-free behind the separator's space. */
  lemma SpacedPartsFree(vals: seq<string>)
    requires |vals| >= 1
    requires forall i :: 0 <= i < |vals| ==> Free(vals[i], ',')
    ensures var parts := [vals[0]] + Spaced(vals[1..]);
      forall k :: 0 <= k < |parts| ==> Free(parts[k], ',')
  {
    var parts := [vals[0]] + Spaced(vals[1..]);
    forall k | 0 <= k < |parts| ensures Free(parts[k], ',') {
      if k == 0 {
        assert parts[k] == vals[0];
      } else {
        assert parts[k] == " " + vals[k];
        FreeConcat(" ", vals[k], ',');
      }
    }
  }

  lemma FreeConcat(a: string, b: string, d: char)
    requires Free(a, d) && Free(b, d)
    ensures Free(a + b, d)
  {
    forall i | 0 <= i < |a + b| ensures (a + b)[i] != d {
      if i >= |a| {
        assert (a + b)[i] == b[i - |a|];
      }
    }
  }
}
