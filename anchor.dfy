/**
 * Menu anchor names (TransformOriginAnchorPosition) and the two string
 * operations the components apply to them: `includes('top')` and
 * `split('-')`. The anchor type itself is declared in a file that is not
 * part of this model; the components treat it as a string of the form
 * "<vertical>-<horizontal>".
 */
module Anchor {
  import opened Common

  datatype Vertical = Top | Bottom
  datatype Horizontal = Left | Right

  function VerticalName(v: Vertical): string
  {
    match v
    case Top => "top"
    case Bottom => "bottom"
  }

  function HorizontalName(h: Horizontal): string
  {
    match h
    case Left => "left"
    case Right => "right"
  }

  /** The anchor name "top-left", "top-right", "bottom-left" or "bottom-right". */
  function Name(v: Vertical, h: Horizontal): string
  {
    VerticalName(v) + "-" + HorizontalName(h)
  }

  const TopLeft: string := "top-left"
  const TopRight: string := "top-right"

  /** `menuAnchorPosition || 'top-left'`: an absent or empty name falls back to "top-left". */
  function OrTopLeft(menuAnchorPosition: Option<string>): (anchor: string)
    ensures anchor != ""
    ensures menuAnchorPosition.Some? && menuAnchorPosition.value != "" ==> anchor == menuAnchorPosition.value
    ensures menuAnchorPosition == None || menuAnchorPosition == Some("") ==> anchor == TopLeft
  {
    if menuAnchorPosition.Some? && menuAnchorPosition.value != "" then menuAnchorPosition.value
    else TopLeft
  }

  /** `sub` occurs in `s` starting at index `i`. */
  predicate OccursAt(s: string, sub: string, i: int)
  {
    0 <= i && i + |sub| <= |s| && s[i..i + |sub|] == sub
  }

  /** `s.includes(sub)`: `sub` occurs somewhere in `s`. */
  function Includes(s: string, sub: string): (r: bool)
    ensures r <==> exists i :: OccursAt(s, sub, i)
    decreases |s|
  {
    if |s| < |sub| then false
    else if s[..|sub|] == sub then assert OccursAt(s, sub, 0); true
    else
      var r := Includes(s[1..], sub);
      assert r ==> exists i :: OccursAt(s, sub, i) by {
        if r {
          var j :| OccursAt(s[1..], sub, j);
          assert s[j + 1..j + 1 + |sub|] == s[1..][j..j + |sub|];
          assert OccursAt(s, sub, j + 1);
        }
      }
      assert (exists i :: OccursAt(s, sub, i)) ==> r by {
        if exists i :: OccursAt(s, sub, i) {
          var i :| OccursAt(s, sub, i);
          assert i != 0;
          assert s[1..][i - 1..i - 1 + |sub|] == s[i..i + |sub|];
          assert OccursAt(s[1..], sub, i - 1);
        }
      }
      r
  }

  /** A string that lacks one of the characters of `sub` cannot include `sub`. */
  lemma MissingCharExcludes(s: string, sub: string, k: nat)
    requires k < |sub| && sub[k] !in s
    ensures !Includes(s, sub)
  {
    forall i | 0 <= i && i + |sub| <= |s|
      ensures !OccursAt(s, sub, i)
    {
      assert s[i..i + |sub|][k] == s[i + k];
    }
  }

  /** The inverse of `split`: the parts glued back with the separator. */
  function Join(parts: seq<string>, sep: char): string
    requires |parts| >= 1
  {
    if |parts| == 1 then parts[0] else parts[0] + [sep] + Join(parts[1..], sep)
  }

  /** `s.split(sep)` for a one-character separator. */
  function Split(s: string, sep: char): (parts: seq<string>)
    ensures |parts| >= 1
    ensures forall k :: 0 <= k < |parts| ==> sep !in parts[k]
    ensures Join(parts, sep) == s
    decreases |s|
  {
    if |s| == 0 then [""]
    else
      var rest := Split(s[1..], sep);
      if s[0] == sep then
        assert ([""] + rest)[1..] == rest;
        [""] + rest
      else
        var parts := [[s[0]] + rest[0]] + rest[1..];
        assert parts[1..] == rest[1..];
        assert forall k :: 1 <= k < |parts| ==> parts[k] == rest[k];
        assert Join(parts, sep) == [s[0]] + Join(rest, sep) by {
          if |rest| > 1 {
            assert Join(rest, sep) == rest[0] + [sep] + Join(rest[1..], sep);
          }
        }
        assert s == [s[0]] + s[1..];
        parts
  }

  /** Splitting `a + s` where `a` has no separator glues `a` to the first part. */
  lemma {:induction false} SplitPrefix(a: string, s: string, sep: char)
    requires sep !in a
    ensures Split(a + s, sep) == [a + Split(s, sep)[0]] + Split(s, sep)[1..]
    decreases |a|
  {
    if |a| > 0 {
      assert (a + s)[1..] == a[1..] + s;
      assert (a + s)[0] == a[0];
      SplitPrefix(a[1..], s, sep);
      assert [a[0]] + (a[1..] + Split(s, sep)[0]) == a + Split(s, sep)[0];
    } else {
      var parts := Split(s, sep);
      assert a + s == s;
      assert a + parts[0] == parts[0];
      assert [parts[0]] + parts[1..] == parts;
    }
  }

  /** Splitting a join of separator-free parts gives the parts back. */
  lemma {:induction false} SplitJoin(parts: seq<string>, sep: char)
    requires |parts| >= 1
    requires forall k :: 0 <= k < |parts| ==> sep !in parts[k]
    ensures Split(Join(parts, sep), sep) == parts
    decreases |parts|
  {
    if |parts| == 1 {
      SplitPrefix(parts[0], "", sep);
      assert parts[0] + "" == parts[0];
    } else {
      var tail := Join(parts[1..], sep);
      SplitJoin(parts[1..], sep);
      assert ([sep] + tail)[1..] == tail;
      assert Split([sep] + tail, sep) == [""] + parts[1..];
      assert parts[0] + [sep] + tail == parts[0] + ([sep] + tail);
      SplitPrefix(parts[0], [sep] + tail, sep);
      assert parts[0] + "" == parts[0];
      assert [parts[0]] + parts[1..] == parts;
    }
  }

  /** `s.split(sep)[k]`: the k-th part, absent (`undefined`) past the end. */
  function Token(s: string, sep: char, k: nat): (t: Option<string>)
    ensures t.Some? <==> k < |Split(s, sep)|
    ensures t.Some? ==> sep !in t.value
  {
    var parts := Split(s, sep);
    if k < |parts| then Some(parts[k]) else None
  }

  /** The vertical token `split('-')[0]`: everything before the first '-'. */
  function VerticalToken(anchor: string): (t: string)
    ensures '-' !in t
    ensures exists rest :: anchor == t + rest && (rest == [] || rest[0] == '-')
  {
    var parts := Split(anchor, '-');
    assert parts == [parts[0]] + parts[1..];
    assert anchor == parts[0] + (if |parts| == 1 then [] else [ '-' ] + Join(parts[1..], '-'));
    parts[0]
  }

  /** The horizontal token `split('-')[1]`, absent when there is no '-'. */
  function HorizontalToken(anchor: string): (t: Option<string>)
    ensures t.Some? <==> '-' in anchor
    ensures t.Some? ==> '-' !in t.value
    ensures t.Some? ==> exists rest :: anchor == VerticalToken(anchor) + "-" + t.value + rest &&
                                       (rest == [] || rest[0] == '-')
  {
    SecondPart(anchor);
    Token(anchor, '-', 1)
  }

  /** Where the parts of `split('-')` sit in the anchor: a second part exists exactly when there is a '-'. */
  lemma SecondPart(anchor: string)
    ensures var parts := Split(anchor, '-');
            (|parts| >= 2 <==> '-' in anchor) &&
            (|parts| >= 2 ==> exists rest :: anchor == parts[0] + "-" + parts[1] + rest &&
                                             (rest == [] || rest[0] == '-'))
  {
    var parts := Split(anchor, '-');
    if |parts| == 1 {
      assert Join(parts, '-') == parts[0];
    } else {
      var rest := JoinTail(parts, '-');
      assert anchor == parts[0] + "-" + parts[1] + rest;
      assert anchor[|parts[0]|] == '-';
    }
  }

  /** Joining two or more parts: the first, the separator, the second, then the rest. */
  lemma JoinTail(parts: seq<string>, sep: char) returns (rest: string)
    requires |parts| >= 2
    ensures Join(parts, sep) == parts[0] + [sep] + parts[1] + rest
    ensures rest == [] || rest[0] == sep
  {
    assert parts[1..][0] == parts[1];
    if |parts| == 2 {
      rest := [];
      assert Join(parts[1..], sep) == parts[1];
    } else {
      rest := [sep] + Join(parts[2..], sep);
      assert parts[1..][1..] == parts[2..];
      assert Join(parts[1..], sep) == parts[1] + [sep] + Join(parts[2..], sep);
    }
  }

  /** For a name "v-h" made of two separator-free words, the tokens are v and h. */
  lemma TwoTokens(v: string, h: string)
    requires '-' !in v && '-' !in h
    ensures Split(v + "-" + h, '-') == [v, h]
    ensures VerticalToken(v + "-" + h) == v
    ensures HorizontalToken(v + "-" + h) == Some(h)
  {
    assert Join([v, h], '-') == v + "-" + h by {
      assert [v, h][1..] == [h];
    }
    SplitJoin([v, h], '-');
  }

  /** The four standard anchors: their tokens, and which of them count as "top". */
  lemma StandardAnchor(v: Vertical, h: Horizontal)
    ensures VerticalToken(Name(v, h)) == VerticalName(v)
    ensures HorizontalToken(Name(v, h)) == Some(HorizontalName(h))
    ensures Includes(Name(v, h), "top") <==> v == Top
  {
    TwoTokens(VerticalName(v), HorizontalName(h));
    if v == Top {
      assert Name(v, h)[0..3] == "top";
    } else {
      assert "top"[2] == 'p';
      assert 'p' !in Name(v, h);
      MissingCharExcludes(Name(v, h), "top", 2);
    }
  }
}
