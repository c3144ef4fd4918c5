/**
 SGR attributes and OSC 8 hyperlinks: what an escape code means, and the tracker that carries
 the active style across line breaks.
 */
module Styles {
  import opened Options

  /** One semicolon-separated SGR parameter: empty, or decimal digits given by their value and
      the number of leading zeros. */
  datatype Param = Missing | Number(value: nat, zeros: nat)

  function Plain(n: nat): Param { Number(n, 0) }

  datatype Link = Link(attributes: string, url: string, bell: bool)

  /** `Other` is any escape sequence the tracker ignores. */
  datatype Code = Sgr(params: seq<Param>) | Hyperlink(attributes: string, url: string, bell: bool) | Other(text: string)

  /** `attributes` holds the SGR numbers switched on, from bold (1) to strikethrough (9). */
  datatype Style = Style(
    attributes: set<nat>, fgColor: Option<seq<Param>>, bgColor: Option<seq<Param>>, link: Option<Link>)

  const DEFAULT_STYLE := Style({}, None, None, None)

  /** The order in which active attributes are written out. */
  const ATTRIBUTES: seq<nat> := [1, 2, 3, 4, 5, 7, 8, 9]

  predicate IsAttribute(n: nat) { 1 <= n <= 5 || 7 <= n <= 9 }

  function Reset(s: Style): Style { DEFAULT_STYLE.(link := s.link) }

  function Basic(n: nat, low: nat, high: nat): bool { low <= n <= low + 7 || high <= n <= high + 7 }

  function ApplyNumber(s: Style, n: nat): Style {
    if n == 0 then Reset(s)
    else if IsAttribute(n) then s.(attributes := s.attributes + {n})
    else if n == 21 then s.(attributes := s.attributes - {1})
    else if n == 22 then s.(attributes := s.attributes - {1, 2})
    else if 23 <= n <= 25 || 27 <= n <= 29 then s.(attributes := s.attributes - {n - 20})
    else if n == 39 then s.(fgColor := None)
    else if n == 49 then s.(bgColor := None)
    else if Basic(n, 30, 90) then s.(fgColor := Some([Plain(n)]))
    else if Basic(n, 40, 100) then s.(bgColor := Some([Plain(n)]))
    else s
  }

  function SetColor(s: Style, selector: nat, color: seq<Param>): Style {
    if selector == 38 then s.(fgColor := Some(color)) else s.(bgColor := Some(color))
  }

  predicate IsSelector(p: Param) { p.Number? && (p.value == 38 || p.value == 48) }

  /** How many parameters an extended color takes, or zero when none starts here. */
  function ExtendedLength(params: seq<Param>): (n: nat)
    ensures n <= |params|
  {
    if |params| < 3 || !IsSelector(params[0]) then 0
    else if params[1] == Plain(5) then 3
    else if params[1] == Plain(2) && 5 <= |params| then 5
    else 0
  }

  function ApplyParams(s: Style, params: seq<Param>): Style
    decreases |params|
  {
    if params == [] then s
    else
      var n := ExtendedLength(params);
      if 0 < n then ApplyParams(SetColor(s, params[0].value, params[..n]), params[n..])
      else ApplyParams(if params[0].Number? then ApplyNumber(s, params[0].value) else s, params[1..])
  }

  predicate IsResetOnly(params: seq<Param>) { params == [Missing] || params == [Plain(0)] }

  /** The meaning of one escape code. */
  function Feed(s: Style, code: Code): Style {
    match code
    case Hyperlink(attributes, url, bell) => s.(link := if url == "" then None else Some(Link(attributes, url, bell)))
    case Sgr(params) => if IsResetOnly(params) then Reset(s) else ApplyParams(s, params)
    case Other(_) => s
  }

  function FeedAll(s: Style, codes: seq<Code>): Style {
    if codes == [] then s else Feed(FeedAll(s, codes[..|codes| - 1]), codes[|codes| - 1])
  }

  function Flags(attributes: set<nat>, order: seq<nat>): seq<Param> {
    if order == [] then []
    else (if order[0] in attributes then [Plain(order[0])] else []) + Flags(attributes, order[1..])
  }

  function ColorParams(color: Option<seq<Param>>): seq<Param> { if color.Some? then color.value else [] }

  function ActiveParams(s: Style): seq<Param> {
    Flags(s.attributes, ATTRIBUTES) + (ColorParams(s.fgColor) + ColorParams(s.bgColor))
  }

  function ActiveCodes(s: Style): seq<Code> {
    (if ActiveParams(s) == [] then [] else [Sgr(ActiveParams(s))])
    + (if s.link.Some? then [Hyperlink(s.link.value.attributes, s.link.value.url, s.link.value.bell)] else [])
  }

  /** Underline and hyperlink are closed at a line end so they do not bleed into padding. */
  function LineEndReset(s: Style): seq<Code> {
    (if 4 in s.attributes then [Sgr([Plain(24)])] else [])
    + (if s.link.Some? then [Hyperlink("", "", s.link.value.bell)] else [])
  }

  // ----- the styles a tracker can hold -----

  predicate ValidColor(color: Option<seq<Param>>, selector: nat, low: nat, high: nat) {
    match color
    case None => true
    case Some(c) =>
      || (|c| == 1 && c[0].Number? && c[0].zeros == 0 && Basic(c[0].value, low, high))
      || (|c| == 3 && c[0].Number? && c[0].value == selector && c[1] == Plain(5))
      || (|c| == 5 && c[0].Number? && c[0].value == selector && c[1] == Plain(2))
  }

  ghost predicate Reachable(s: Style) {
    && (forall n <- s.attributes :: IsAttribute(n))
    && ValidColor(s.fgColor, 38, 30, 90)
    && ValidColor(s.bgColor, 48, 40, 100)
    && (s.link.Some? ==> s.link.value.url != "")
  }

  lemma {:induction false} ApplyParamsReachable(s: Style, params: seq<Param>)
    requires Reachable(s)
    ensures Reachable(ApplyParams(s, params))
    decreases |params|
  {
    if params == [] {
    } else {
      var n := ExtendedLength(params);
      if 0 < n {
        ApplyParamsReachable(SetColor(s, params[0].value, params[..n]), params[n..]);
      } else {
        ApplyParamsReachable(if params[0].Number? then ApplyNumber(s, params[0].value) else s, params[1..]);
      }
    }
  }

  /** Every style the tracker can reach from the default one satisfies `Reachable`. */
  lemma FeedReachable(s: Style, code: Code)
    requires Reachable(s)
    ensures Reachable(Feed(s, code))
  {
    if code.Sgr? {
      ApplyParamsReachable(s, code.params);
    }
  }

  // ----- what a number means -----

  /** Attribute `a` is on after number `n`: switched on by its own number, and kept unless everything is reset, its
      off number is its own plus 20, or, for bold and dim, 21 or 22. */
  lemma NumberMeans(s: Style, n: nat, a: nat)
    requires IsAttribute(a)
    ensures a in ApplyNumber(s, n).attributes <==>
              || n == a
              || (a in s.attributes && n != 0 && (a <= 2 || n != a + 20)
                  && (a == 1 ==> n != 21 && n != 22) && (a == 2 ==> n != 22))
    ensures ApplyNumber(s, n).fgColor == if 30 <= n <= 37 || 90 <= n <= 97 then Some([Plain(n)])
                                         else if n == 0 || n == 39 then None else s.fgColor
    ensures ApplyNumber(s, n).bgColor == if 40 <= n <= 47 || 100 <= n <= 107 then Some([Plain(n)])
                                         else if n == 0 || n == 49 then None else s.bgColor
    ensures ApplyNumber(s, n).link == s.link
  {
  }

  /** 38 and 48 with 5 and a colour, or with 2 and three shares, set a colour as a whole; what follows is read on. */
  lemma ExtendedColorMeans(s: Style, selector: Param, color: seq<Param>, rest: seq<Param>)
    requires selector.Number? && (selector.value == 38 || selector.value == 48)
    requires (|color| == 2 && color[0] == Plain(5)) || (|color| == 4 && color[0] == Plain(2))
    ensures ApplyParams(s, [selector] + color + rest)
            == ApplyParams(if selector.value == 38 then s.(fgColor := Some([selector] + color))
                           else s.(bgColor := Some([selector] + color)), rest)
  {
    var all := [selector] + color + rest;
    var n := |color| + 1;
    assert all[0] == selector && all[1] == color[0] && ExtendedLength(all) == n;
    assert all[..n] == [selector] + color && all[n..] == rest;
  }

  /** Any other parameter is read by itself. */
  lemma SingleParamMeans(s: Style, p: Param, rest: seq<Param>)
    requires p.Number? ==> p.value != 38 && p.value != 48
    ensures ApplyParams(s, [p] + rest) == ApplyParams(if p.Number? then ApplyNumber(s, p.value) else s, rest)
  {
    assert ([p] + rest)[1..] == rest;
  }

  // ----- re-opening a style -----

  lemma OneFlagMore(on: set<nat>, attributes: set<nat>, order: seq<nat>)
    requires order != []
    ensures (if order[0] in attributes then on + {order[0]} else on) + (set n | n in order[1..] && n in attributes)
            == on + set n | n in order && n in attributes
  {
  }

  lemma {:induction false} ApplyFlags(s: Style, attributes: set<nat>, order: seq<nat>, rest: seq<Param>)
    requires forall n <- order :: IsAttribute(n)
    ensures ApplyParams(s, Flags(attributes, order) + rest)
            == ApplyParams(s.(attributes := s.attributes + set n | n in order && n in attributes), rest)
    decreases |order|
  {
    if order == [] {
      assert Flags(attributes, order) + rest == rest;
      assert s.attributes + (set n | n in order && n in attributes) == s.attributes;
    } else {
      var tail := Flags(attributes, order[1..]) + rest;
      assert order[0] in order;
      var s' := if order[0] in attributes then s.(attributes := s.attributes + {order[0]}) else s;
      assert ApplyParams(s, Flags(attributes, order) + rest) == ApplyParams(s', tail) by {
        if order[0] in attributes {
          assert Flags(attributes, order) + rest == [Plain(order[0])] + tail;
          assert ([Plain(order[0])] + tail)[1..] == tail;
        } else {
          assert Flags(attributes, order) + rest == tail;
        }
      }
      ApplyFlags(s', attributes, order[1..], rest);
      OneFlagMore(s.attributes, attributes, order);
    }
  }

  lemma ApplyColor(s: Style, color: Option<seq<Param>>, selector: nat, low: nat, high: nat, rest: seq<Param>)
    requires (selector == 38 && low == 30 && high == 90) || (selector == 48 && low == 40 && high == 100)
    requires ValidColor(color, selector, low, high)
    ensures ApplyParams(s, ColorParams(color) + rest)
            == ApplyParams(if color.None? then s else SetColor(s, selector, color.value), rest)
  {
    if color.None? {
      assert ColorParams(color) + rest == rest;
    } else {
      var c := color.value;
      var all := c + rest;
      assert all[..|c|] == c && all[|c|..] == rest;
      if |c| == 1 {
        assert all[0] == c[0] && all[1..] == rest && c == [Plain(c[0].value)];
        assert ExtendedLength(all) == 0;
      } else {
        assert ExtendedLength(all) == |c|;
      }
    }
  }

  lemma ActiveParamsRestore(s: Style)
    requires Reachable(s)
    ensures ApplyParams(DEFAULT_STYLE, ActiveParams(s)) == s.(link := None)
  {
    var flagged := DEFAULT_STYLE.(attributes := s.attributes);
    ApplyFlags(DEFAULT_STYLE, s.attributes, ATTRIBUTES, ColorParams(s.fgColor) + ColorParams(s.bgColor));
    assert DEFAULT_STYLE.attributes + (set n | n in ATTRIBUTES && n in s.attributes) == s.attributes by {
      assert ATTRIBUTES[0] == 1 && ATTRIBUTES[1] == 2 && ATTRIBUTES[2] == 3 && ATTRIBUTES[3] == 4;
      assert ATTRIBUTES[4] == 5 && ATTRIBUTES[5] == 7 && ATTRIBUTES[6] == 8 && ATTRIBUTES[7] == 9;
    }
    ApplyColor(flagged, s.fgColor, 38, 30, 90, ColorParams(s.bgColor));
    ApplyColor(flagged.(fgColor := s.fgColor), s.bgColor, 48, 40, 100, []);
    assert ColorParams(s.bgColor) + [] == ColorParams(s.bgColor);
  }

  lemma {:induction false} FlagsStartNonZero(attributes: set<nat>, order: seq<nat>)
    requires forall n <- order :: IsAttribute(n)
    ensures Flags(attributes, order) != [] ==>
            Flags(attributes, order)[0].Number? && Flags(attributes, order)[0].value != 0
  {
    if order != [] {
      assert order[0] in order;
      FlagsStartNonZero(attributes, order[1..]);
    }
  }

  lemma FeedOne(s: Style, codes: seq<Code>, code: Code)
    ensures FeedAll(s, codes + [code]) == Feed(FeedAll(s, codes), code)
  {
    assert (codes + [code])[..|codes|] == codes;
  }

  lemma AttributesRestore(s: Style)
    requires Reachable(s)
    ensures Feed(DEFAULT_STYLE, Sgr(ActiveParams(s))) == s.(link := None)
  {
    ActiveParamsRestore(s);
    NotResetOnly(s);
  }

  lemma NotResetOnly(s: Style)
    requires Reachable(s)
    ensures !IsResetOnly(ActiveParams(s))
  {
    FlagsStartNonZero(s.attributes, ATTRIBUTES);
    var flags, fg, bg := Flags(s.attributes, ATTRIBUTES), ColorParams(s.fgColor), ColorParams(s.bgColor);
    var params := flags + (fg + bg);
    if flags != [] {
      assert params[0] == flags[0];
    } else if fg != [] {
      assert params[0] == fg[0];
    } else if bg != [] {
      assert params[0] == bg[0];
    }
  }

  /** Feeding the active codes of any reachable style to a fresh tracker reproduces the style. */
  lemma ReopeningRestoresStyle(s: Style)
    requires Reachable(s)
    ensures FeedAll(DEFAULT_STYLE, ActiveCodes(s)) == s
  {
    var plain := s.(link := None);
    AttributesRestore(s);
    var first := if ActiveParams(s) == [] then [] else [Sgr(ActiveParams(s))];
    assert FeedAll(DEFAULT_STYLE, first) == plain by {
      if ActiveParams(s) != [] {
        FeedOne(DEFAULT_STYLE, [], Sgr(ActiveParams(s)));
        assert [] + [Sgr(ActiveParams(s))] == first;
      }
    }
    if s.link.Some? {
      var linked := Hyperlink(s.link.value.attributes, s.link.value.url, s.link.value.bell);
      FeedOne(DEFAULT_STYLE, first, linked);
      assert ActiveCodes(s) == first + [linked];
      assert Feed(plain, linked) == s;
    } else {
      assert ActiveCodes(s) == first;
    }
  }

  lemma NothingActive(s: Style)
    requires Reachable(s)
    ensures ActiveCodes(s) == [] <==> s == DEFAULT_STYLE
  {
    ActiveParamsRestore(s);
    FeedOne(s, [], Sgr([]));
  }

  /** Closing at a line end and resetting leaves the default style, whatever was open. */
  lemma ClosingEndsInDefault(s: Style)
    ensures FeedAll(s, LineEndReset(s)) == s.(attributes := s.attributes - {4}, link := None)
    ensures Feed(FeedAll(s, LineEndReset(s)), Sgr([Plain(0)])) == DEFAULT_STYLE
  {
    var first := if 4 in s.attributes then [Sgr([Plain(24)])] else [];
    FeedOne(s, [], Sgr([Plain(24)]));
    assert [] + [Sgr([Plain(24)])] == [Sgr([Plain(24)])];
    assert ApplyParams(s, [Plain(24)]) == s.(attributes := s.attributes - {4});
    assert FeedAll(s, first).attributes == s.attributes - {4};
    if s.link.Some? {
      FeedOne(s, first, Hyperlink("", "", s.link.value.bell));
    } else {
      assert LineEndReset(s) == first;
    }
  }

  // ----- the tracker -----

  class AnsiCodeTracker {
    var attributes: set<nat>
    var fgColor: Option<seq<Param>>
    var bgColor: Option<seq<Param>>
    var activeHyperlink: Option<Link>

    function Active(): Style
      reads this
    {
      Style(attributes, fgColor, bgColor, activeHyperlink)
    }

    constructor ()
      ensures Active() == DEFAULT_STYLE
    {
      attributes, fgColor, bgColor, activeHyperlink := {}, None, None, None;
    }

    method Process(code: Code)
      modifies this
      ensures Active() == Feed(old(Active()), code)
    {
      match code
      case Hyperlink(parameters, url, bell) =>
        activeHyperlink := if url == "" then None else Some(Link(parameters, url, bell));
      case Other(_) =>
      case Sgr(params) =>
        if IsResetOnly(params) {
          Reset();
          return;
        }
        var i := 0;
        assert params[0..] == params;
        while i < |params|
          invariant 0 <= i <= |params|
          invariant ApplyParams(Active(), params[i..]) == ApplyParams(old(Active()), params)
        {
          var rest := params[i..];
          var n := ExtendedLength(rest);
          if 0 < n {
            assert rest[..n] == params[i..i + n] && rest[n..] == params[i + n..];
            if params[i].value == 38 {
              fgColor := Some(params[i..i + n]);
            } else {
              bgColor := Some(params[i..i + n]);
            }
            i := i + n;
            continue;
          }
          assert rest[1..] == params[i + 1..];
          if params[i].Number? {
            Apply(params[i].value);
          }
          i := i + 1;
        }
    }

    method Apply(code: nat)
      modifies this
      ensures Active() == ApplyNumber(old(Active()), code)
    {
      if code == 0 {
        Reset();
      } else if IsAttribute(code) {
        attributes := attributes + {code};
      } else if code == 21 {
        attributes := attributes - {1};
      } else if code == 22 {
        attributes := attributes - {1, 2};
      } else if 23 <= code <= 25 || 27 <= code <= 29 {
        attributes := attributes - {code - 20};
      } else if code == 39 {
        fgColor := None;
      } else if code == 49 {
        bgColor := None;
      } else if Basic(code, 30, 90) {
        fgColor := Some([Plain(code)]);
      } else if Basic(code, 40, 100) {
        bgColor := Some([Plain(code)]);
      }
    }

    method Reset()
      modifies this
      ensures Active() == DEFAULT_STYLE.(link := old(activeHyperlink))
    {
      attributes, fgColor, bgColor := {}, None, None;
    }
  }
}
