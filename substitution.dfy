/**
 * The final `body.replace(regexp, callback)` pass: the same matches as the
 * scan, each replaced by the callback's value, the text between them copied.
 */
module Substitution {
  import opened LinkPattern

  /** `s[from..]` with the k-th match's span replaced by `reps[k]`. */
  function Splice(s: string, from: nat, ms: seq<Match>, reps: seq<string>): string
    requires Chained(s, from, ms) && |reps| == |ms|
    decreases |ms|
  {
    if ms == [] then s[from..]
    else s[from..ms[0].offset] + reps[0] + Splice(s, End(ms[0]), ms[1..], reps[1..])
  }

  lemma DropSplit(s: string, a: nat, b: nat, c: nat)
    requires a <= b <= c <= |s|
    ensures s[a..] == s[a..b] + s[b..c] + s[c..]
  {
    assert s[a..] == s[a..b] + s[b..];
    assert s[b..] == s[b..c] + s[c..];
  }

  /** Replacing every span by its own text gives the input back. */
  lemma {:induction false} SpliceIdentity(s: string, from: nat, ms: seq<Match>, reps: seq<string>)
    requires Chained(s, from, ms) && AllOccur(s, ms) && |reps| == |ms|
    requires forall k :: 0 <= k < |ms| ==> reps[k] == Text(ms[k])
    ensures Splice(s, from, ms, reps) == s[from..]
    decreases |ms|
  {
    if ms != [] {
      var m := ms[0];
      assert Occurs(s, m);
      assert AllOccur(s, ms[1..]) by {
        forall k | 0 <= k < |ms| - 1 ensures Occurs(s, ms[1..][k]) {
          assert ms[1..][k] == ms[k + 1];
        }
      }
      assert forall k :: 0 <= k < |ms| - 1 ==> reps[1..][k] == Text(ms[1..][k]) by {
        forall k | 0 <= k < |ms| - 1 ensures reps[1..][k] == Text(ms[1..][k]) {
          assert reps[1..][k] == reps[k + 1] && ms[1..][k] == ms[k + 1];
        }
      }
      SpliceIdentity(s, End(m), ms[1..], reps[1..]);
      OccursEnd(s, m);
      DropSplit(s, from, m.offset, End(m));
    }
  }

  /**
   * The callback `offsetToAttachment[offset]`: the entry at the offset, or
   * JavaScript's `undefined`, which `replace` turns into the text "undefined".
   */
  function Lookup(rewrites: map<int, string>, offset: int): string {
    if offset in rewrites then rewrites[offset] else "undefined"
  }

  /** The callback's value for every match. */
  function Callbacks(rewrites: map<int, string>, ms: seq<Match>): seq<string> {
    seq(|ms|, k requires 0 <= k < |ms| => Lookup(rewrites, ms[k].offset))
  }

  /** `body.replace(regexp, callback)`, as written. */
  function ReplaceAll(body: string, rewrites: map<int, string>): (r: string)
    ensures Scan(body, 0) == [] ==> r == body
  {
    var ms := Scan(body, 0);
    Splice(body, 0, ms, Callbacks(rewrites, ms))
  }

  /** A callback that keeps the matched text when the offset has no entry. */
  function KeepOrRewrite(rewrites: map<int, string>, m: Match): string {
    if m.offset in rewrites then rewrites[m.offset] else Text(m)
  }

  /** The callback's value for every match, when a span without an entry keeps its text. */
  function KeptOrRewritten(rewrites: map<int, string>, ms: seq<Match>): (r: seq<string>)
    ensures |r| == |ms|
    ensures forall k :: 0 <= k < |ms| ==> r[k] == KeepOrRewrite(rewrites, ms[k])
  {
    seq(|ms|, k requires 0 <= k < |ms| => KeepOrRewrite(rewrites, ms[k]))
  }

  /** The replace pass as intended: a span without an entry is left as it was. */
  function ReplaceAllKeeping(body: string, rewrites: map<int, string>): string {
    var ms := Scan(body, 0);
    Splice(body, 0, ms, KeptOrRewritten(rewrites, ms))
  }

  /** With the intended callback, a body none of whose links has an entry comes back unchanged. */
  lemma KeepingWithoutEntries(body: string, rewrites: map<int, string>)
    requires forall m :: m in Scan(body, 0) ==> m.offset !in rewrites
    ensures ReplaceAllKeeping(body, rewrites) == body
  {
    var ms := Scan(body, 0);
    SpliceIdentity(body, 0, ms, KeptOrRewritten(rewrites, ms));
  }

  /** Splicing one span. */
  lemma SpliceOne(s: string, from: nat, m: Match, r: string)
    requires Chained(s, from, [m])
    ensures Splice(s, from, [m], [r]) == s[from..m.offset] + r + s[End(m)..]
  {
    assert [m][1..] == [] && [r][1..] == [];
  }

  /** The replace pass over a body with one link: the callback's value takes the link's place. */
  lemma ReplaceOne(body: string, m: Match, rewrites: map<int, string>)
    requires Scan(body, 0) == [m]
    ensures m.offset <= End(m) <= |body|
    ensures ReplaceAll(body, rewrites) == body[..m.offset] + Lookup(rewrites, m.offset) + body[End(m)..]
  {
    CallbacksOne(rewrites, m);
    SpliceOne(body, 0, m, Lookup(rewrites, m.offset));
  }

  lemma CallbacksOne(rewrites: map<int, string>, m: Match)
    ensures Callbacks(rewrites, [m]) == [Lookup(rewrites, m.offset)]
  {
    var cb := Callbacks(rewrites, [m]);
    assert |cb| == 1 && cb[0] == Lookup(rewrites, m.offset);
  }

  /** As written, a body that is one link without an entry comes out as the text "undefined". */
  lemma UnresolvedLinkBecomesUndefined(bang: bool, name: string, path: string, rewrites: map<int, string>)
    requires ValidName(name) && ValidPath(path) && 0 !in rewrites
    ensures ReplaceAll(Link(bang, name, path), rewrites) == "undefined"
  {
    var s := Link(bang, name, path);
    var m := Match(0, bang, name, path);
    assert "" + s == s;
    PlainThenLink("", bang, name, path);
    ReplaceOne(s, m, rewrites);
    assert s[..0] == [] && s[End(m)..] == [];
  }

  /** With the intended callback, that body comes out unchanged. */
  lemma UnresolvedLinkKept(bang: bool, name: string, path: string, rewrites: map<int, string>)
    requires ValidName(name) && ValidPath(path) && 0 !in rewrites
    ensures ReplaceAllKeeping(Link(bang, name, path), rewrites) == Link(bang, name, path)
  {
    var s := Link(bang, name, path);
    assert "" + s == s;
    PlainThenLink("", bang, name, path);
    KeepingWithoutEntries(s, rewrites);
  }
}
