/**
  Paths as the mount's caches compare them: lowercased character by character,
  and component by component when a whole folder is forgotten.
 */
module Paths {

  type CaseMap = char -> char

  /** Lowercasing neither makes nor unmakes a separator. */
  ghost predicate KeepsSeparators(fold: CaseMap) {
    forall c :: fold(c) == '/' <==> c == '/'
  }

  function Fold(fold: CaseMap, path: string): string {
    seq(|path|, i requires 0 <= i < |path| => fold(path[i]))
  }

  /** The components of a path, an empty one in front of a leading separator. */
  function Components(path: string): (cs: seq<string>)
    ensures cs != []
  {
    if path == "" then [""]
    else
      var rest := Components(path[1..]);
      if path[0] == '/' then [""] + rest else [[path[0]] + rest[0]] + rest[1..]
  }

  /** The paths of two spellings fold alike, character by character, and no others do. */
  lemma FoldsAlike(fold: CaseMap, p: string, q: string)
    ensures Fold(fold, p) == Fold(fold, q) <==>
            |p| == |q| && forall i | 0 <= i < |p| :: fold(p[i]) == fold(q[i])
  {
    var a, b := Fold(fold, p), Fold(fold, q);
    if a == b {
      forall i | 0 <= i < |p| ensures fold(p[i]) == fold(q[i]) {
        assert a[i] == fold(p[i]) && b[i] == fold(q[i]);
      }
    }
  }

  function Joined(cs: seq<string>): string
    requires cs != []
  {
    if |cs| == 1 then cs[0] else cs[0] + "/" + Joined(cs[1..])
  }

  /** Components are what lies between the separators: none holds one, and joined by them they are the path. */
  lemma {:induction false} ComponentsRoundTrip(path: string)
    ensures Joined(Components(path)) == path
    ensures forall i | 0 <= i < |Components(path)| :: '/' !in Components(path)[i]
  {
    if path != "" {
      var rest := Components(path[1..]);
      ComponentsRoundTrip(path[1..]);
      assert path == [path[0]] + path[1..];
      if path[0] == '/' {
        assert ([""] + rest)[1..] == rest;
      } else {
        assert ([[path[0]] + rest[0]] + rest[1..])[1..] == rest[1..];
        if |rest| > 1 {
          assert [path[0]] + rest[0] + "/" + Joined(rest[1..]) == [path[0]] + (rest[0] + "/" + Joined(rest[1..]));
        }
      }
    }
  }

  /** `key` is `folder` itself, or starts with it and a separator. */
  predicate Under(folder: string, key: string) {
    key == folder || folder + "/" <= key
  }

  lemma StartsWith(c: char, folder: string, d: char, key: string)
    ensures Under([c] + folder, [d] + key) <==> c == d && Under(folder, key)
  {
    assert ([c] + folder) + "/" == [c] + (folder + "/");
    Peeled(c, folder + "/", d, key);
    assert ([d] + key)[1..] == key && ([c] + folder)[1..] == folder;
  }

  lemma Peeled(c: char, s: string, d: char, t: string)
    ensures [c] + s <= [d] + t <==> c == d && s <= t
  {
    var x, y := [c] + s, [d] + t;
    assert x[1..] == s && y[1..] == t && x[0] == c && y[0] == d;
    if x <= y {
      assert x[0] == y[0];
      assert s == y[..|x|][1..] == t[..|s|];
    }
    if c == d && s <= t {
      assert y[..|x|] == [d] + t[..|s|];
    }
  }

  /** The separator in the sweep is what makes it respect whole names. */
  lemma {:induction false} UnderIsComponentPrefix(folder: string, key: string)
    ensures Under(folder, key) <==> Components(folder) <= Components(key)
    decreases |folder|
  {
    if folder == "" {
      assert Components(folder) == [""];
      assert key != "" ==> ("/" <= key <==> key[0] == '/');
      assert [""] <= Components(key) <==> Components(key)[0] == "";
    } else if key == "" {
      NoShorterThanItsFirst(folder);
    } else {
      var f, k := folder[1..], key[1..];
      assert folder == [folder[0]] + f && key == [key[0]] + k;
      StartsWith(folder[0], f, key[0], k);
      UnderIsComponentPrefix(f, k);
      HeadComponents(folder[0], Components(f), key[0], Components(k));
    }
  }

  lemma NoShorterThanItsFirst(path: string)
    requires path != ""
    ensures !(Components(path) <= [""])
  {
    assert |Components(path)| > 1 || Components(path)[0] != "";
  }

  function Prepend(c: char, cs: seq<string>): seq<string>
    requires cs != []
  {
    if c == '/' then [""] + cs else [[c] + cs[0]] + cs[1..]
  }

  lemma HeadComponents(c: char, cs: seq<string>, d: char, ds: seq<string>)
    requires cs != [] && ds != []
    ensures Prepend(c, cs) <= Prepend(d, ds) <==> c == d && cs <= ds
  {
    var x, y := Prepend(c, cs), Prepend(d, ds);
    if c == d {
      if c == '/' {
        PrefixTail([""], cs, ds);
      } else {
        assert cs == [cs[0]] + cs[1..] && ds == [ds[0]] + ds[1..];
        assert [c] + cs[0] == [c] + ds[0] <==> cs[0] == ds[0] by {
          assert ([c] + cs[0])[1..] == cs[0] && ([c] + ds[0])[1..] == ds[0];
        }
        PrefixCons([c] + cs[0], cs[1..], [c] + ds[0], ds[1..]);
        PrefixCons(cs[0], cs[1..], ds[0], ds[1..]);
      }
    } else {
      assert x[0] != y[0] by {
        assert c != '/' ==> x[0][0] == c;
        assert d != '/' ==> y[0][0] == d;
      }
    }
  }

  lemma PrefixTail(head: seq<string>, a: seq<string>, b: seq<string>)
    ensures head + a <= head + b <==> a <= b
  {
    assert (head + a)[|head|..] == a && (head + b)[|head|..] == b;
    if head + a <= head + b {
      assert a == (head + b)[..|head + a|][|head|..] == b[..|a|];
    }
  }

  lemma PrefixCons(x: string, a: seq<string>, y: string, b: seq<string>)
    ensures [x] + a <= [y] + b <==> x == y && a <= b
  {
    if [x] + a <= [y] + b {
      assert ([x] + a)[0] == ([y] + b)[0];
    }
    if x == y {
      PrefixTail([x], a, b);
    }
  }

  /** Folding a path folds its components, so the comparison is the same up to case. */
  lemma {:induction false} FoldedComponents(fold: CaseMap, path: string)
    requires KeepsSeparators(fold)
    ensures |Components(Fold(fold, path))| == |Components(path)|
    ensures forall i | 0 <= i < |Components(path)| ::
              Components(Fold(fold, path))[i] == Fold(fold, Components(path)[i])
  {
    if path != "" {
      FoldedComponents(fold, path[1..]);
      assert Fold(fold, path)[1..] == Fold(fold, path[1..]);
      var rest := Components(path[1..]);
      assert path[0] != '/' ==> Fold(fold, [path[0]] + rest[0]) == [fold(path[0])] + Fold(fold, rest[0]);
    }
  }

  /**
    Forgetting a path and then everything behind `path + "/"` sweeps the folder's
    whole subtree, and nothing beside it.
   */
  lemma PathAndPrefixSweepSubtree(fold: CaseMap, path: string, key: string)
    requires KeepsSeparators(fold)
    ensures key == Fold(fold, path) || Fold(fold, path + "/") <= key <==>
            Components(Fold(fold, path)) <= Components(key)
  {
    assert Fold(fold, path + "/") == Fold(fold, path) + "/";
    UnderIsComponentPrefix(Fold(fold, path), key);
  }

  /** A sweep by prefix alone does not: without the separator some sibling goes too. */
  lemma BarePrefixTakesSiblings(folder: string)
    ensures exists key :: folder <= key && !(Components(folder) <= Components(key))
  {
    var key := folder + "x";
    UnderIsComponentPrefix(folder, key);
    assert key[|folder|] == 'x';
  }
}
