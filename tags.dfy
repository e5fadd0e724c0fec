/**
 * The tag filter's string form: a comma-separated list whose pieces are
 * trimmed of surrounding whitespace. Ruby's String#split drops trailing
 * empty fields, so "" gives no tags at all.
 */
module Tags {

  /**
   * The whitespace this model trims: space, tab, newline, vertical tab,
   * form feed and carriage return. NUL, which `String#strip` also drops
   * at the end, is not included.
   */
  predicate IsSpace(c: char) {
    c == ' ' || c == '\t' || c == '\n' || c == '\r' || c as int == 11 || c as int == 12
  }

  predicate AllSpace(s: string) {
    forall i :: 0 <= i < |s| ==> IsSpace(s[i])
  }

  /** No whitespace at either end. */
  predicate Trimmed(s: string) {
    s == [] || (!IsSpace(s[0]) && !IsSpace(s[|s| - 1]))
  }

  /** Drops leading whitespace: the result is the suffix left once the whitespace prefix is gone. */
  function TrimLeft(s: string): (r: string)
    ensures |r| <= |s| && r == s[|s| - |r|..]
    ensures forall i :: 0 <= i < |s| - |r| ==> IsSpace(s[i])
    ensures r == [] || !IsSpace(r[0])
  {
    if s != [] && IsSpace(s[0]) then
      var r := TrimLeft(s[1..]);
      assert forall i :: 1 <= i < |s| ==> s[1..][i - 1] == s[i];
      r
    else s
  }

  /** Drops trailing whitespace: the result is the prefix left once the whitespace suffix is gone. */
  function TrimRight(s: string): (r: string)
    ensures |r| <= |s| && r == s[..|r|]
    ensures forall i :: |r| <= i < |s| ==> IsSpace(s[i])
    ensures r == [] || !IsSpace(r[|r| - 1])
  {
    if s != [] && IsSpace(s[|s| - 1]) then
      var r := TrimRight(s[..|s| - 1]);
      assert s[..|s| - 1][..|r|] == s[..|r|];
      r
    else s
  }

  /** Drops whitespace at both ends; a comma-free string stays comma-free. */
  function Trim(s: string): (r: string)
    ensures Trimmed(r) && |r| <= |s|
    ensures Trimmed(s) ==> r == s
    ensures ',' !in s ==> ',' !in r
  {
    var l := TrimLeft(s);
    var r := TrimRight(l);
    TrimKeepsChars(s, l, r);
    TrimEnds(l, r);
    TrimmedIsFixed(s);
    r
  }

  lemma TrimmedIsFixed(s: string)
    ensures Trimmed(s) ==> TrimLeft(s) == s && TrimRight(s) == s
  {
  }

  lemma TrimEnds(l: string, r: string)
    requires l == [] || !IsSpace(l[0])
    requires |r| <= |l| && r == l[..|r|]
    requires r == [] || !IsSpace(r[|r| - 1])
    ensures Trimmed(r)
  {
    if r != [] {
      assert r[0] == l[0];
    }
  }

  lemma TrimKeepsChars(s: string, l: string, r: string)
    requires |l| <= |s| && l == s[|s| - |l|..]
    requires |r| <= |l| && r == l[..|r|]
    ensures ',' in r ==> ',' in s
  {
    if ',' in r {
      var k :| 0 <= k < |r| && r[k] == ',';
      assert s[|s| - |l| + k] == l[k] == ',';
    }
  }

  /** Trim removes exactly the whitespace around a trimmed core. */
  lemma {:induction false} TrimPadded(pre: string, t: string, post: string)
    requires AllSpace(pre) && AllSpace(post) && Trimmed(t)
    ensures Trim(pre + t + post) == t
  {
    assert pre + t + post == pre + (t + post);
    if t == [] {
      assert pre + t + post == pre + post;
      TrimLeftAllSpace(pre + post);
    } else {
      TrimLeftPadded(pre, t + post);
      TrimRightPadded(t, post);
    }
  }

  lemma {:induction false} TrimLeftAllSpace(s: string)
    requires AllSpace(s)
    ensures TrimLeft(s) == []
  {
    if s != [] {
      TrimLeftAllSpace(s[1..]);
    }
  }

  lemma {:induction false} TrimLeftPadded(pre: string, s: string)
    requires AllSpace(pre) && (s == [] || !IsSpace(s[0]))
    ensures TrimLeft(pre + s) == s
  {
    if pre != [] {
      assert (pre + s)[1..] == pre[1..] + s;
      TrimLeftPadded(pre[1..], s);
    } else {
      assert pre + s == s;
    }
  }

  lemma {:induction false} TrimRightPadded(s: string, post: string)
    requires AllSpace(post) && (s == [] || !IsSpace(s[|s| - 1]))
    ensures TrimRight(TrimLeft(s) + post) == TrimLeft(s)
  {
    var l := TrimLeft(s);
    assert l == [] || l[|l| - 1] == s[|s| - 1];
    TrimRightOfPadded(l, post);
  }

  lemma {:induction false} TrimRightOfPadded(s: string, post: string)
    requires AllSpace(post) && (s == [] || !IsSpace(s[|s| - 1]))
    ensures TrimRight(s + post) == s
    decreases |post|
  {
    if post != [] {
      var p := post[..|post| - 1];
      assert (s + post)[..|s + post| - 1] == s + p;
      TrimRightOfPadded(s, p);
    } else {
      assert s + post == s;
    }
  }

  /** Splits on every comma, keeping empty fields: there is always at least one field. */
  function Fields(s: string): (r: seq<string>)
    ensures |r| >= 1
    ensures forall i :: 0 <= i < |r| ==> ',' !in r[i]
    decreases |s|
  {
    if s == [] then [""]
    else
      var rest := Fields(s[1..]);
      if s[0] == ',' then [""] + rest
      else [[s[0]] + rest[0]] + rest[1..]
  }

  /** The pieces joined back with `sep` between neighbours. */
  function Join(parts: seq<string>, sep: string): string
    decreases |parts|
  {
    if |parts| == 0 then ""
    else if |parts| == 1 then parts[0]
    else parts[0] + sep + Join(parts[1..], sep)
  }

  lemma JoinHead(c: char, parts: seq<string>, sep: string)
    requires |parts| >= 1
    ensures Join([[c] + parts[0]] + parts[1..], sep) == [c] + Join(parts, sep)
  {
    var q := [[c] + parts[0]] + parts[1..];
    assert q[1..] == parts[1..];
  }

  /** Joining the fields with commas gives back the string they were split from. */
  lemma {:induction false} JoinFields(s: string)
    ensures Join(Fields(s), ",") == s
    decreases |s|
  {
    if s != [] {
      var rest := Fields(s[1..]);
      JoinFields(s[1..]);
      if s[0] == ',' {
        var q := [""] + rest;
        assert q[1..] == rest;
        assert Join(q, ",") == "" + "," + Join(rest, ",");
        assert s == [s[0]] + s[1..];
      } else {
        JoinHead(s[0], rest, ",");
        assert s == [s[0]] + s[1..];
      }
    }
  }

  lemma {:induction false} FieldsPrefix(p: string, t: string)
    requires ',' !in p
    ensures Fields(p + t) == [p + Fields(t)[0]] + Fields(t)[1..]
    decreases |p|
  {
    if p == [] {
      assert p + t == t;
      assert p + Fields(t)[0] == Fields(t)[0];
      assert [p + Fields(t)[0]] + Fields(t)[1..] == Fields(t);
    } else {
      assert (p + t)[1..] == p[1..] + t;
      assert p[0] != ',' by { assert p[0] in p; }
      FieldsPrefix(p[1..], t);
      assert [p[0]] + (p[1..] + Fields(t)[0]) == p + Fields(t)[0];
    }
  }

  /** Splitting comma-joined pieces that hold no comma gives the pieces back. */
  lemma {:induction false} FieldsOfJoin(parts: seq<string>)
    requires |parts| >= 1
    requires forall i :: 0 <= i < |parts| ==> ',' !in parts[i]
    ensures Fields(Join(parts, ",")) == parts
    decreases |parts|
  {
    if |parts| == 1 {
      FieldsPrefix(parts[0], "");
      assert Fields("") == [""];
      assert parts[0] + "" == parts[0];
      assert Join(parts, ",") == parts[0] + "";
    } else {
      var tail := Join(parts[1..], ",");
      FieldsOfJoin(parts[1..]);
      FieldsPrefix(parts[0], "," + tail);
      assert ("," + tail)[0] == ',' && ("," + tail)[1..] == tail;
      assert Join(parts, ",") == parts[0] + ("," + tail);
      assert Fields("," + tail) == [""] + parts[1..];
      assert parts[0] + "" == parts[0];
      assert parts == [parts[0]] + parts[1..];
    }
  }

  function TrimAll(parts: seq<string>): (r: seq<string>)
    ensures |r| == |parts|
    ensures forall i :: 0 <= i < |r| ==> r[i] == Trim(parts[i])
  {
    seq(|parts|, i requires 0 <= i < |parts| => Trim(parts[i]))
  }

  /** Ruby's String#split discards empty fields at the end of the result. */
  function DropTrailingEmpty(parts: seq<string>): (r: seq<string>)
    ensures |r| <= |parts| && r == parts[..|r|]
    ensures r == [] || r[|r| - 1] != ""
    ensures forall i :: |r| <= i < |parts| ==> parts[i] == ""
  {
    if parts != [] && parts[|parts| - 1] == "" then DropTrailingEmpty(parts[..|parts| - 1])
    else parts
  }

  /** The tag list a string assignment (or the `:tags` setting) denotes. */
  function SplitTags(s: string): (r: seq<string>)
    ensures forall i :: 0 <= i < |r| ==> Trimmed(r[i]) && ',' !in r[i]
    ensures r == [] || r[|r| - 1] != ""
    ensures |r| <= |Fields(s)|
  {
    var fields := Fields(s);
    var trimmed := TrimAll(fields);
    var r := DropTrailingEmpty(trimmed);
    PiecesClean(fields, trimmed, r);
    r
  }

  lemma PiecesClean(fields: seq<string>, trimmed: seq<string>, r: seq<string>)
    requires forall i :: 0 <= i < |fields| ==> ',' !in fields[i]
    requires |trimmed| == |fields| && forall i :: 0 <= i < |trimmed| ==> trimmed[i] == Trim(fields[i])
    requires |r| <= |trimmed| && r == trimmed[..|r|]
    ensures forall i :: 0 <= i < |r| ==> Trimmed(r[i]) && ',' !in r[i]
  {
    forall i | 0 <= i < |r|
      ensures Trimmed(r[i]) && ',' !in r[i]
    {
      assert r[i] == trimmed[i];
    }
  }

  /**
   * Splitting comma-joined fields gives back the trimmed fields, as long as
   * the last one is not blank.
   */
  lemma SplitTagsOfPadded(tags: seq<string>, padded: seq<string>)
    requires |padded| == |tags| >= 1
    requires forall i :: 0 <= i < |padded| ==> ',' !in padded[i] && Trim(padded[i]) == tags[i]
    requires tags[|tags| - 1] != ""
    ensures SplitTags(Join(padded, ",")) == tags
  {
    FieldsOfJoin(padded);
    var trimmed := TrimAll(padded);
    assert trimmed == tags by {
      assert forall i :: 0 <= i < |trimmed| ==> trimmed[i] == tags[i];
    }
    assert DropTrailingEmpty(tags) == tags;
  }

  /** The tags in `tags` with one space put in front of every one but the first. */
  function SpaceAfterCommas(tags: seq<string>): (r: seq<string>)
    ensures |r| == |tags|
  {
    seq(|tags|, i requires 0 <= i < |tags| => if i == 0 then tags[i] else " " + tags[i])
  }

  lemma {:induction false} JoinCommaSpace(tags: seq<string>)
    ensures Join(tags, ", ") == Join(SpaceAfterCommas(tags), ",")
    decreases |tags|
  {
    if |tags| >= 2 {
      JoinCommaSpace(tags[1..]);
      var p := SpaceAfterCommas(tags);
      var q := SpaceAfterCommas(tags[1..]);
      assert p[1..] == [" " + tags[1]] + q[1..];
      assert Join(p[1..], ",") == " " + Join(q, ",") by {
        assert q == [tags[1]] + q[1..];
        if |q| == 1 {
        } else {
          assert Join(p[1..], ",") == " " + tags[1] + "," + Join(q[1..], ",") by {
            assert p[1..][1..] == q[1..];
          }
        }
      }
    }
  }

  /**
   * Round trip: a list of clean tags (non-empty, trimmed, comma-free) joined
   * with "," or with ", " splits back into the same list; no tags is "".
   */
  lemma SplitTagsJoin(tags: seq<string>)
    requires forall i :: 0 <= i < |tags| ==> tags[i] != "" && Trimmed(tags[i]) && ',' !in tags[i]
    ensures SplitTags(Join(tags, ",")) == tags
    ensures SplitTags(Join(tags, ", ")) == tags
  {
    if tags != [] {
      assert forall i :: 0 <= i < |tags| ==> Trim(tags[i]) == tags[i];
      SplitTagsOfPadded(tags, tags);
      SplitTagsJoinSpaced(tags);
    }
  }

  lemma SplitTagsJoinSpaced(tags: seq<string>)
    requires tags != []
    requires forall i :: 0 <= i < |tags| ==> tags[i] != "" && Trimmed(tags[i]) && ',' !in tags[i]
    ensures SplitTags(Join(tags, ", ")) == tags
  {
    SpaceAfterCommasTrims(tags);
    SplitTagsOfPadded(tags, SpaceAfterCommas(tags));
    JoinCommaSpace(tags);
  }

  lemma SpaceAfterCommasTrims(tags: seq<string>)
    requires forall i :: 0 <= i < |tags| ==> Trimmed(tags[i]) && ',' !in tags[i]
    ensures forall i :: 0 <= i < |tags| ==>
      ',' !in SpaceAfterCommas(tags)[i] && Trim(SpaceAfterCommas(tags)[i]) == tags[i]
  {
    var padded := SpaceAfterCommas(tags);
    forall i | 0 <= i < |padded|
      ensures ',' !in padded[i] && Trim(padded[i]) == tags[i]
    {
      if i > 0 {
        TrimPadded(" ", tags[i], "");
        assert " " + tags[i] + "" == padded[i];
      }
    }
  }

  /** The tag strings the transaction's tests assign or read from the setting. */
  lemma SplitTagsSingleExample()
    ensures SplitTags("one") == ["one"]
  {
    SplitsToItself("one");
  }

  /** A qualified tag keeps its `::`; only commas separate tags. */
  lemma SplitTagsQualifiedExample()
    ensures SplitTags("one::two") == ["one::two"]
  {
    SplitsToItself("one::two");
  }

  lemma SplitTagsCommaExample()
    ensures SplitTags("one,two") == ["one", "two"]
  {
    var joined := "one,two";
    assert joined == "one" + "," + "two";
    SplitsToPair("one", "two");
  }

  lemma SplitTagsCommaSpaceExample()
    ensures SplitTags("one, two") == ["one", "two"]
  {
    var spaced := "one, two";
    assert spaced == "one" + ", " + "two";
    SplitsToPair("one", "two");
  }

  lemma SplitTagsEmptyExample()
    ensures SplitTags("") == []
  {
    SplitTagsJoin([]);
  }

  lemma SplitsToItself(t: string)
    requires t != "" && Trimmed(t) && ',' !in t
    ensures SplitTags(t) == [t]
  {
    SplitTagsJoin([t]);
  }

  lemma SplitsToPair(a: string, b: string)
    requires a != "" && Trimmed(a) && ',' !in a
    requires b != "" && Trimmed(b) && ',' !in b
    ensures SplitTags(a + "," + b) == [a, b]
    ensures SplitTags(a + ", " + b) == [a, b]
  {
    SplitTagsJoin([a, b]);
    assert Join([a, b], ",") == a + "," + b;
    assert Join([a, b], ", ") == a + ", " + b;
  }
}
