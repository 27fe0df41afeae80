/**
 * The link pattern `(!?)\[([^\]]+)\]\((\/uploads[^)]+)\)` with the global flag,
 * as `String.prototype.matchAll` and `String.prototype.replace` apply it:
 * the search starts at offset 0, takes the leftmost match, and resumes right
 * after the end of each match.
 */
module LinkPattern {
  import opened Wrappers

  /** The literal every attachment path starts with. */
  const UploadsDir: string := "/uploads"

  /** One match: its start offset and its three capture groups (`!` or nothing, the name, the path). */
  datatype Match = Match(offset: nat, bang: bool, name: string, path: string)

  /** Capture group 1 as text. */
  function Marker(bang: bool): string {
    if bang then "!" else ""
  }

  /** A link written `<marker>[<name>](<target>)`. */
  function Link(bang: bool, name: string, target: string): string {
    Marker(bang) + "[" + name + "](" + target + ")"
  }

  /** The text the match spans. */
  function Text(m: Match): string {
    Link(m.bang, m.name, m.path)
  }

  /** The offset just past the match: where the search resumes. */
  function End(m: Match): nat {
    m.offset + |Text(m)|
  }

  /** Group 2, `[^\]]+`. */
  predicate ValidName(name: string) {
    name != [] && ']' !in name
  }

  /** Group 3, `\/uploads[^)]+`. */
  predicate ValidPath(path: string) {
    |path| > |UploadsDir| && path[..|UploadsDir|] == UploadsDir && ')' !in path
  }

  /** `s[at..]` starts with `p`. */
  predicate HasPrefixAt(s: string, at: nat, p: string) {
    at + |p| <= |s| && s[at..at + |p|] == p
  }

  /** Group 2 at `from`: a valid name, then `](`. */
  predicate NameThere(s: string, from: nat, name: string) {
    var close := from + |name|;
    ValidName(name) && close + 1 < |s| && s[from..close] == name && s[close] == ']' && s[close + 1] == '('
  }

  /** Group 3 at `from`: a valid path, then `)`. */
  predicate PathThere(s: string, from: nat, path: string) {
    var paren := from + |path|;
    ValidPath(path) && paren < |s| && s[from..paren] == path && s[paren] == ')'
  }

  /**
   * `m` is an occurrence of the pattern in `s` starting at `m.offset`: its
   * marker, then `[`, then its name and `](`, then its path and `)`.
   */
  predicate Occurs(s: string, m: Match) {
    var open := m.offset + |Marker(m.bang)|;
    && (m.bang ==> m.offset < |s| && s[m.offset] == '!') && open < |s| && s[open] == '['
    && NameThere(s, open + 1, m.name) && PathThere(s, open + 1 + |m.name| + 2, m.path)
  }

  /** Where `x + y` starts, `x` starts and `y` follows it. */
  lemma PrefixSplit(s: string, at: nat, x: string, y: string)
    requires HasPrefixAt(s, at, x + y)
    ensures HasPrefixAt(s, at, x) && HasPrefixAt(s, at + |x|, y)
  {
    var k := at + |x|;
    assert s[at..k] == s[at..k + |y|][..|x|] == x;
    assert s[k..k + |y|] == s[at..k + |y|][|x|..] == y;
  }

  lemma PrefixChar(s: string, at: nat, c: char)
    ensures HasPrefixAt(s, at, [c]) <==> at < |s| && s[at] == c
  {
    if at < |s| {
      assert s[at..at + 1] == [s[at]];
    }
  }

  lemma BracketParenAt(s: string, at: nat)
    ensures HasPrefixAt(s, at, "](") <==> at + 1 < |s| && s[at] == ']' && s[at + 1] == '('
  {
    if at + 2 <= |s| {
      assert s[at..at + 2] == [s[at], s[at + 1]];
    }
  }

  lemma MarkerPrefix(s: string, at: nat, bang: bool)
    ensures HasPrefixAt(s, at, Marker(bang)) <==> at <= |s| && (bang ==> at < |s| && s[at] == '!')
  {
    if bang {
      assert Marker(bang) == ['!'];
      PrefixChar(s, at, '!');
    }
  }

  /** Where a link starts, its six pieces follow one another. */
  lemma LinkPieces(s: string, at: nat, bang: bool, name: string, target: string)
    requires HasPrefixAt(s, at, Link(bang, name, target))
    ensures var p, n, t := |Marker(bang)|, |name|, |target|;
      && HasPrefixAt(s, at, Marker(bang)) && HasPrefixAt(s, at + p, "[") && HasPrefixAt(s, at + p + 1, name)
      && HasPrefixAt(s, at + p + 1 + n, "](") && HasPrefixAt(s, at + p + 3 + n, target)
      && HasPrefixAt(s, at + p + 3 + n + t, ")")
  {
    var mk := Marker(bang);
    var p, n, t := |mk|, |name|, |target|;
    var l1 := mk + "[";
    var l2 := l1 + name;
    var l3 := l2 + "](";
    var l4 := l3 + target;
    assert Link(bang, name, target) == l4 + ")";
    assert |l1| == p + 1 && |l2| == p + 1 + n && |l3| == p + 3 + n && |l4| == p + 3 + n + t;
    PrefixSplit(s, at, l4, ")");
    PrefixSplit(s, at, l3, target);
    PrefixSplit(s, at, l2, "](");
    PrefixSplit(s, at, l1, name);
    PrefixSplit(s, at, mk, "[");
  }

  lemma SliceSplit(s: string, a: nat, b: nat, c: nat)
    requires a <= b <= c <= |s|
    ensures s[a..c] == s[a..b] + s[b..c]
  {
  }

  /** Six consecutive slices make up the slice they span. */
  lemma SliceSplit6(s: string, i0: nat, i1: nat, i2: nat, i3: nat, i4: nat, i5: nat, i6: nat)
    requires i0 <= i1 <= i2 <= i3 <= i4 <= i5 <= i6 <= |s|
    ensures s[i0..i6] == s[i0..i1] + s[i1..i2] + s[i2..i3] + s[i3..i4] + s[i4..i5] + s[i5..i6]
  {
    SliceSplit(s, i0, i1, i2);
    SliceSplit(s, i0, i2, i3);
    SliceSplit(s, i0, i3, i4);
    SliceSplit(s, i0, i4, i5);
    SliceSplit(s, i0, i5, i6);
  }

  /** Six consecutive slices equal to six strings make up their concatenation. */
  lemma Assemble6(s: string, i0: nat, i1: nat, i2: nat, i3: nat, i4: nat, i5: nat, i6: nat,
                  a: string, b: string, c: string, d: string, e: string, f: string)
    requires i0 <= i1 <= i2 <= i3 <= i4 <= i5 <= i6 <= |s|
    requires s[i0..i1] == a && s[i1..i2] == b && s[i2..i3] == c && s[i3..i4] == d && s[i4..i5] == e && s[i5..i6] == f
    ensures s[i0..i6] == a + b + c + d + e + f
  {
    SliceSplit6(s, i0, i1, i2, i3, i4, i5, i6);
  }

  lemma CharAt(s: string, at: nat, c: char)
    requires at < |s| && s[at] == c
    ensures s[at..at + 1] == [c]
  {
  }

  /** The slices of an occurrence that hold its marker and delimiters. */
  lemma Delimiters(s: string, m: Match)
    requires Occurs(s, m)
    ensures var open := m.offset + |Marker(m.bang)|;
      var close := open + 1 + |m.name|;
      var paren := close + 2 + |m.path|;
      && paren < |s|
      && s[m.offset..open] == Marker(m.bang) && s[open..open + 1] == "[" && s[open + 1..close] == m.name
      && s[close..close + 2] == "](" && s[close + 2..paren] == m.path && s[paren..paren + 1] == ")"
  {
    var open := m.offset + |Marker(m.bang)|;
    var close := open + 1 + |m.name|;
    if m.bang {
      CharAt(s, m.offset, '!');
    }
    CharAt(s, open, '[');
    assert s[close..close + 2] == [s[close], s[close + 1]];
    CharAt(s, close + 2 + |m.path|, ')');
  }

  /** An occurrence spans its link text, up to one past its `)`. */
  lemma OccursEnd(s: string, m: Match)
    requires Occurs(s, m)
    ensures End(m) == m.offset + |Marker(m.bang)| + 1 + |m.name| + 2 + |m.path| + 1 <= |s|
    ensures s[m.offset..End(m)] == Text(m)
  {
    var open := m.offset + |Marker(m.bang)|;
    var close := open + 1 + |m.name|;
    var paren := close + 2 + |m.path|;
    Delimiters(s, m);
    Assemble6(s, m.offset, open, open + 1, close, close + 2, paren, paren + 1, Marker(m.bang), "[", m.name, "](", m.path, ")");
  }

  /** Each piece of a link in place makes an occurrence, given a valid name and path. */
  lemma PiecesOccur(s: string, m: Match)
    requires ValidName(m.name) && ValidPath(m.path)
    requires var p, n, t := |Marker(m.bang)|, |m.name|, |m.path|;
      && HasPrefixAt(s, m.offset, Marker(m.bang)) && HasPrefixAt(s, m.offset + p, "[")
      && HasPrefixAt(s, m.offset + p + 1, m.name) && HasPrefixAt(s, m.offset + p + 1 + n, "](")
      && HasPrefixAt(s, m.offset + p + 3 + n, m.path) && HasPrefixAt(s, m.offset + p + 3 + n + t, ")")
    ensures Occurs(s, m)
  {
    var open := m.offset + |Marker(m.bang)|;
    var close := open + 1 + |m.name|;
    MarkerPrefix(s, m.offset, m.bang);
    PrefixChar(s, open, '[');
    BracketParenAt(s, close);
    PrefixChar(s, close + 2 + |m.path|, ')');
  }

  /** A valid name and path whose link text starts at `m.offset` make an occurrence. */
  lemma TextOccurs(s: string, m: Match)
    requires ValidName(m.name) && ValidPath(m.path) && HasPrefixAt(s, m.offset, Text(m))
    ensures Occurs(s, m)
  {
    LinkPieces(s, m.offset, m.bang, m.name, m.path);
    PiecesOccur(s, m);
  }

  /** Text equal to a string that lacks `c` has no `c` at those positions of `s`. */
  lemma PrefixAvoids(s: string, at: nat, x: string, c: char)
    requires at + |x| <= |s| && s[at..at + |x|] == x && c !in x
    ensures forall k :: at <= k < at + |x| ==> s[k] != c
  {
    forall k | at <= k < at + |x| ensures s[k] != c {
      assert s[k] == s[at..at + |x|][k - at] == x[k - at];
    }
  }

  /** A slice of positions that all differ from `c` lacks `c`. */
  lemma SliceAvoids(s: string, lo: nat, hi: nat, c: char)
    requires lo <= hi <= |s| && forall k :: lo <= k < hi ==> s[k] != c
    ensures c !in s[lo..hi]
  {
    forall k | 0 <= k < hi - lo ensures s[lo..hi][k] != c {
      assert s[lo..hi][k] == s[lo + k];
    }
  }

  /** The first index at or after `from` holding `c`, or `|s|` when there is none. */
  function IndexOf(s: string, c: char, from: nat): (k: nat)
    requires from <= |s|
    ensures from <= k <= |s|
    ensures k < |s| ==> s[k] == c
    decreases |s| - from
  {
    if from == |s| || s[from] == c then from else IndexOf(s, c, from + 1)
  }

  /** No index before the one found holds `c`. */
  lemma {:induction false} IndexOfSkips(s: string, c: char, from: nat)
    requires from <= |s|
    ensures forall t :: from <= t < IndexOf(s, c, from) ==> s[t] != c
    decreases |s| - from
  {
    if from < |s| && s[from] != c {
      IndexOfSkips(s, c, from + 1);
    }
  }

  /** The first index at or after `from` holding `c` is the `k` such that no earlier one does. */
  lemma IndexOfIs(s: string, c: char, from: nat, k: nat)
    requires from <= k < |s| && s[k] == c && forall t :: from <= t < k ==> s[t] != c
    ensures IndexOf(s, c, from) == k
    decreases k - from
  {
    if from < k {
      IndexOfIs(s, c, from + 1, k);
    }
  }

  /**
   * Group 2 and the `](` after it, tried at `from`. The class `[^\]]` excludes
   * the delimiter that follows it, so the name ends at the first `]`: there is
   * no other way to match.
   */
  function NameAt(s: string, from: nat): Option<string>
    requires from <= |s|
  {
    var close := IndexOf(s, ']', from);
    if close == from || close + 1 >= |s| || s[close + 1] != '(' then None
    else Some(s[from..close])
  }

  /** Group 3 and the `)` after it, tried at `from`; the path ends at the first `)`. */
  function PathAt(s: string, from: nat): Option<string>
    requires from <= |s|
  {
    if !HasPrefixAt(s, from, UploadsDir) then None
    else
      var paren := IndexOf(s, ')', from + |UploadsDir|);
      if paren == from + |UploadsDir| || paren == |s| then None
      else Some(s[from..paren])
  }

  /** `\[([^\]]+)\]\((\/uploads[^)]+)\)` tried at `open`: groups 2 and 3. */
  function GroupsAt(s: string, open: nat): Option<(string, string)>
    requires open <= |s|
  {
    if open >= |s| || s[open] != '[' then None
    else match NameAt(s, open + 1)
      case None => None
      case Some(name) =>
        var close := open + 1 + |name|;
        match PathAt(s, close + 2)
        case None => None
        case Some(path) => Some((name, path))
  }

  /** One attempt of the regular expression at offset `i`. */
  function MatchAt(s: string, i: nat): Option<Match>
    requires i <= |s|
  {
    var bang := i < |s| && s[i] == '!';
    var open := if bang then i + 1 else i;
    match GroupsAt(s, open)
    case None => None
    case Some((name, path)) => Some(Match(i, bang, name, path))
  }

  /** The attempt at group 2 finds a name that is there. */
  lemma NameAtFinds(s: string, from: nat, name: string)
    requires from <= |s| && NameThere(s, from, name)
    ensures NameAt(s, from) == Some(name)
  {
    PrefixAvoids(s, from, name, ']');
    IndexOfIs(s, ']', from, from + |name|);
  }

  /** What the attempt at group 2 finds is there. */
  lemma NameAtFound(s: string, from: nat)
    requires from <= |s| && NameAt(s, from).Some?
    ensures NameThere(s, from, NameAt(s, from).value)
  {
    IndexOfSkips(s, ']', from);
    SliceAvoids(s, from, IndexOf(s, ']', from), ']');
  }

  /** The attempt at group 3 finds a path that is there. */
  lemma PathAtFinds(s: string, from: nat, path: string)
    requires from <= |s| && PathThere(s, from, path)
    ensures PathAt(s, from) == Some(path)
  {
    var u := |UploadsDir|;
    assert HasPrefixAt(s, from, UploadsDir) by {
      assert s[from..from + u] == path[..u];
    }
    PrefixAvoids(s, from, path, ')');
    IndexOfIs(s, ')', from + u, from + |path|);
  }

  /** What the attempt at group 3 finds is there. */
  lemma PathAtFound(s: string, from: nat)
    requires from <= |s| && PathAt(s, from).Some?
    ensures PathThere(s, from, PathAt(s, from).value)
  {
    var u := |UploadsDir|;
    var path := PathAt(s, from).value;
    var paren := IndexOf(s, ')', from + u);
    IndexOfSkips(s, ')', from + u);
    assert path[..u] == UploadsDir by {
      assert path[..u] == s[from..from + u];
    }
    PrefixAvoids(s, from, UploadsDir, ')');
    SliceAvoids(s, from, paren, ')');
  }

  /** The attempt at group 2 finds `name` exactly when `name` is there. */
  lemma NameAtSpec(s: string, from: nat, name: string)
    requires from <= |s|
    ensures NameAt(s, from) == Some(name) <==> NameThere(s, from, name)
  {
    if NameAt(s, from).Some? {
      NameAtFound(s, from);
    }
    if NameThere(s, from, name) {
      NameAtFinds(s, from, name);
    }
  }

  /** The attempt at group 3 finds `path` exactly when `path` is there. */
  lemma PathAtSpec(s: string, from: nat, path: string)
    requires from <= |s|
    ensures PathAt(s, from) == Some(path) <==> PathThere(s, from, path)
  {
    if PathAt(s, from).Some? {
      PathAtFound(s, from);
    }
    if PathThere(s, from, path) {
      PathAtFinds(s, from, path);
    }
  }

  /** `m` is what each stage of the attempt at `m.offset` finds. */
  predicate StagesAt(s: string, m: Match) {
    var open := m.offset + |Marker(m.bang)|;
    && m.bang == (m.offset < |s| && s[m.offset] == '!') && open < |s| && s[open] == '['
    && NameAt(s, open + 1) == Some(m.name) && PathAt(s, open + 1 + |m.name| + 2) == Some(m.path)
  }

  /** Groups 2 and 3 are found at `open` when each stage finds its part. */
  lemma GroupsAtFromStages(s: string, open: nat, name: string, path: string)
    requires open < |s| && s[open] == '['
    requires NameAt(s, open + 1) == Some(name) && PathAt(s, open + 1 + |name| + 2) == Some(path)
    ensures GroupsAt(s, open) == Some((name, path))
  {
  }

  /** What each stage found when groups 2 and 3 are found at `open`. */
  lemma StagesOfGroupsAt(s: string, open: nat)
    requires open <= |s| && GroupsAt(s, open).Some?
    ensures var (name, path) := GroupsAt(s, open).value;
      open < |s| && s[open] == '[' && NameAt(s, open + 1) == Some(name) && PathAt(s, open + 1 + |name| + 2) == Some(path)
  {
  }

  /** The attempt at `m.offset` succeeds with `m` when each of its stages finds its part of `m`. */
  lemma MatchAtFromStages(s: string, m: Match)
    requires StagesAt(s, m)
    ensures MatchAt(s, m.offset) == Some(m)
  {
    GroupsAtFromStages(s, m.offset + |Marker(m.bang)|, m.name, m.path);
  }

  /** What a successful attempt at `i` found at each of its stages. */
  lemma StagesOfMatchAt(s: string, i: nat)
    requires i <= |s| && MatchAt(s, i).Some?
    ensures MatchAt(s, i).value.offset == i && StagesAt(s, MatchAt(s, i).value)
  {
    var bang := i < |s| && s[i] == '!';
    StagesOfGroupsAt(s, if bang then i + 1 else i);
  }

  /** What the stages find is an occurrence. */
  lemma StagesOccur(s: string, m: Match)
    requires StagesAt(s, m)
    ensures Occurs(s, m)
  {
    var open := m.offset + |Marker(m.bang)|;
    NameAtFound(s, open + 1);
    PathAtFound(s, open + 1 + |m.name| + 2);
  }

  /** Each stage of the attempt at an occurrence's offset finds its part of the occurrence. */
  lemma OccursStages(s: string, m: Match)
    requires Occurs(s, m)
    ensures StagesAt(s, m)
  {
    var open := m.offset + |Marker(m.bang)|;
    NameAtFinds(s, open + 1, m.name);
    PathAtFinds(s, open + 1 + |m.name| + 2, m.path);
  }

  /** What the attempt at `i` finds is an occurrence starting at `i`. */
  lemma MatchAtOccurs(s: string, i: nat)
    requires i <= |s|
    ensures MatchAt(s, i).Some? ==> MatchAt(s, i).value.offset == i && Occurs(s, MatchAt(s, i).value)
  {
    if MatchAt(s, i).Some? {
      StagesOfMatchAt(s, i);
      StagesOccur(s, MatchAt(s, i).value);
    }
  }

  /** The attempt at offset `m.offset` finds every occurrence that starts there. */
  lemma MatchAtComplete(s: string, m: Match)
    requires Occurs(s, m)
    ensures MatchAt(s, m.offset) == Some(m)
  {
    OccursStages(s, m);
    MatchAtFromStages(s, m);
  }

  /** The attempt at `i` finds `m` exactly when `m` is an occurrence starting at `i`. */
  lemma MatchAtSpec(s: string, i: nat, m: Match)
    requires i <= |s|
    ensures MatchAt(s, i) == Some(m) <==> m.offset == i && Occurs(s, m)
  {
    MatchAtOccurs(s, i);
    if m.offset == i && Occurs(s, m) {
      MatchAtComplete(s, m);
    }
  }

  /** At most one occurrence starts at any offset. */
  lemma OccurrenceUnique(s: string, m1: Match, m2: Match)
    requires Occurs(s, m1) && Occurs(s, m2) && m1.offset == m2.offset
    ensures m1 == m2
  {
    MatchAtComplete(s, m1);
    MatchAtComplete(s, m2);
  }

  /** An occurrence starts with `!` or `[`. */
  lemma OccursStart(s: string, m: Match)
    requires Occurs(s, m)
    ensures s[m.offset] == (if m.bang then '!' else '[')
  {
  }

  /** Rendering a match and scanning the rendering gives the match back. */
  lemma RenderParses(bang: bool, name: string, path: string)
    requires ValidName(name) && ValidPath(path)
    ensures MatchAt(Link(bang, name, path), 0) == Some(Match(0, bang, name, path))
  {
    var m := Match(0, bang, name, path);
    var s := Link(bang, name, path);
    assert s[0..|s|] == s;
    TextOccurs(s, m);
    MatchAtComplete(s, m);
  }

  /** No occurrence starts in `[lo, hi)`. */
  ghost predicate NoMatchIn(s: string, lo: int, hi: int) {
    forall m: Match :: lo <= m.offset < hi ==> !Occurs(s, m)
  }

  lemma NoMatchAtFailure(s: string, i: nat)
    requires i <= |s| && MatchAt(s, i).None?
    ensures NoMatchIn(s, i, i + 1)
  {
    forall m: Match | i <= m.offset < i + 1 ensures !Occurs(s, m) {
      if Occurs(s, m) {
        MatchAtComplete(s, m);
      }
    }
  }

  /** The leftmost occurrence starting at or after `from`. */
  function FindNext(s: string, from: nat): (r: Option<Match>)
    requires from <= |s|
    ensures r.Some? ==> from <= r.value.offset && Occurs(s, r.value) && NoMatchIn(s, from, r.value.offset)
    ensures r.None? ==> NoMatchIn(s, from, |s|)
    decreases |s| - from
  {
    if from == |s| then None
    else
      MatchAtOccurs(s, from);
      match MatchAt(s, from)
      case Some(m) => Some(m)
      case None => NoMatchAtFailure(s, from); FindNext(s, from + 1)
  }

  /** The matches lie inside `s[from..]`, in order, without overlapping. */
  predicate Chained(s: string, from: nat, ms: seq<Match>)
    decreases |ms|
  {
    from <= |s| && (ms != [] ==> from <= ms[0].offset && End(ms[0]) <= |s| && Chained(s, End(ms[0]), ms[1..]))
  }

  predicate AllOccur(s: string, ms: seq<Match>) {
    forall k :: 0 <= k < |ms| ==> Occurs(s, ms[k])
  }

  /** Each match is the leftmost one at or after the end of its predecessor, and none follows the last. */
  ghost predicate Leftmost(s: string, from: nat, ms: seq<Match>)
    decreases |ms|
  {
    if ms == [] then NoMatchIn(s, from, |s|)
    else NoMatchIn(s, from, ms[0].offset) && Leftmost(s, End(ms[0]), ms[1..])
  }

  /** `matchAll` from offset `from`: every match, left to right. */
  function Scan(s: string, from: nat): (r: seq<Match>)
    requires from <= |s|
    ensures Chained(s, from, r) && AllOccur(s, r) && Leftmost(s, from, r)
    decreases |s| - from
  {
    match FindNext(s, from)
    case None => []
    case Some(m) =>
      var rest := Scan(s, End(m));
      assert ([m] + rest)[1..] == rest;
      [m] + rest
  }

  /** Chained matches have strictly increasing offsets and pairwise disjoint spans inside `s[from..]`. */
  lemma {:induction false} ChainedOrdered(s: string, from: nat, ms: seq<Match>)
    requires Chained(s, from, ms)
    ensures forall k :: 0 <= k < |ms| ==> from <= ms[k].offset < End(ms[k]) <= |s|
    ensures forall j, k :: 0 <= j < k < |ms| ==> End(ms[j]) <= ms[k].offset
    decreases |ms|
  {
    if ms != [] {
      ChainedOrdered(s, End(ms[0]), ms[1..]);
      assert forall k :: 1 <= k < |ms| ==> ms[k] == ms[1..][k - 1];
    }
  }

  lemma AllOccurTail(s: string, ms: seq<Match>)
    requires ms != [] && AllOccur(s, ms)
    ensures AllOccur(s, ms[1..])
  {
    forall k | 0 <= k < |ms[1..]| ensures Occurs(s, ms[1..][k]) {
      assert ms[1..][k] == ms[k + 1];
    }
  }

  /** The leftmost occurrence at or after `from` is the one the search finds. */
  lemma FindNextIs(s: string, from: nat, m: Match)
    requires from <= m.offset && Occurs(s, m) && NoMatchIn(s, from, m.offset)
    ensures FindNext(s, from) == Some(m)
  {
    var next := FindNext(s, from);
    assert next.Some? && next.value.offset == m.offset;
    OccurrenceUnique(s, next.value, m);
  }

  /** The scan is the only sequence of matches with the properties `Scan` promises. */
  lemma {:induction false} ScanUnique(s: string, from: nat, ms: seq<Match>)
    requires Chained(s, from, ms) && AllOccur(s, ms) && Leftmost(s, from, ms)
    ensures ms == Scan(s, from)
    decreases |ms|
  {
    if ms == [] {
      ScanNone(s, from);
    } else {
      assert Occurs(s, ms[0]);
      FindNextIs(s, from, ms[0]);
      AllOccurTail(s, ms);
      ScanUnique(s, End(ms[0]), ms[1..]);
      ScanFirst(s, from, ms[0]);
      assert ms == [ms[0]] + ms[1..];
    }
  }

  /** With no occurrence left the scan ends. */
  lemma ScanNone(s: string, from: nat)
    requires from <= |s| && NoMatchIn(s, from, |s|)
    ensures Scan(s, from) == []
  {
  }

  /** The scan starts with the leftmost occurrence and resumes after it. */
  lemma ScanFirst(s: string, from: nat, m: Match)
    requires from <= |s| && FindNext(s, from) == Some(m)
    ensures End(m) <= |s| && Scan(s, from) == [m] + Scan(s, End(m))
  {
  }

  /** A body whose only link is `m`, ending the body, scans to `[m]`. */
  lemma ScanSingle(s: string, m: Match)
    requires Occurs(s, m) && End(m) == |s| && NoMatchIn(s, 0, m.offset)
    ensures Scan(s, 0) == [m]
  {
    assert ([m])[1..] == [];
    ScanUnique(s, 0, [m]);
  }

  lemma PrefixAfter(pre: string, t: string)
    ensures HasPrefixAt(pre + t, |pre|, t)
  {
    assert (pre + t)[|pre|..|pre| + |t|] == t;
  }

  /** No link starts inside text that holds neither `!` nor `[`. */
  lemma NoLinkInPlain(s: string, n: nat)
    requires n <= |s| && '!' !in s[..n] && '[' !in s[..n]
    ensures NoMatchIn(s, 0, n)
  {
    forall m: Match | 0 <= m.offset < n ensures !Occurs(s, m) {
      assert s[m.offset] == s[..n][m.offset];
      if Occurs(s, m) {
        OccursStart(s, m);
      }
    }
  }

  /** A body made of text holding neither `!` nor `[`, then one link, scans to that link alone. */
  lemma ScanPlainThenLink(s: string, m: Match)
    requires Occurs(s, m) && End(m) == |s| && '!' !in s[..m.offset] && '[' !in s[..m.offset]
    ensures Scan(s, 0) == [m]
  {
    NoLinkInPlain(s, m.offset);
    ScanSingle(s, m);
  }

  /** A link after some text is an occurrence that ends the text. */
  lemma LinkAfter(pre: string, bang: bool, name: string, path: string)
    requires ValidName(name) && ValidPath(path)
    ensures var m := Match(|pre|, bang, name, path);
      Occurs(pre + Link(bang, name, path), m) && End(m) == |pre + Link(bang, name, path)|
  {
    PrefixAfter(pre, Link(bang, name, path));
    TextOccurs(pre + Link(bang, name, path), Match(|pre|, bang, name, path));
  }

  /** Text holding neither `!` nor `[`, then one link: the scan finds that link alone. */
  lemma PlainThenLink(pre: string, bang: bool, name: string, path: string)
    requires ValidName(name) && ValidPath(path) && '!' !in pre && '[' !in pre
    ensures Scan(pre + Link(bang, name, path), 0) == [Match(|pre|, bang, name, path)]
  {
    var s := pre + Link(bang, name, path);
    LinkAfter(pre, bang, name, path);
    assert s[..|pre|] == pre;
    ScanPlainThenLink(s, Match(|pre|, bang, name, path));
  }
}
