/**
 * The XML fragments the components write (Component.toXml and the
 * lifecycle blocks of Activity, Service and BroadcastReceiver), as text
 * functions, together with the StringBuilder loops that produce them.
 */
module Markup {
  import opened Strings
  import opened Xml
  import opened Extras

  /** Component.IntentFilter: its action and category sets, in insertion order. */
  datatype IntentFilter = IntentFilter(actions: seq<string>, categories: seq<string>)

  const EMPTY_FILTER := IntentFilter([], [])

  /** IntentFilter.addAction. */
  function AddAction(f: IntentFilter, action: string): (r: IntentFilter)
    ensures r.categories == f.categories
    ensures action in r.actions && forall a :: a in r.actions <==> a in f.actions || a == action
  {
    f.(actions := Insert(f.actions, action))
  }

  /** IntentFilter.addCategory. */
  function AddCategory(f: IntentFilter, category: string): (r: IntentFilter)
    ensures r.actions == f.actions
    ensures category in r.categories && forall c :: c in r.categories <==> c in f.categories || c == category
  {
    f.(categories := Insert(f.categories, category))
  }

  /** The escaped form of every element, in order. */
  function Escaped(xs: seq<string>): (r: seq<string>)
    ensures |r| == |xs|
    decreases |xs|
  {
    if xs == [] then [] else Escaped(xs[..|xs| - 1]) + [MakeXmlConform(xs[|xs| - 1])]
  }

  /** One line per value, in order: `open`, the value, `close`. */
  function Lines(open: string, close: string, vs: seq<string>): string
    decreases |vs|
  {
    if vs == [] then "" else Lines(open, close, vs[..|vs| - 1]) + (open + vs[|vs| - 1] + close)
  }

  /** Every extra with its key and type escaped. */
  function EscapedExtras(es: seq<Extra>): (r: seq<Extra>)
    ensures |r| == |es|
    decreases |es|
  {
    if es == [] then []
    else
      var e := es[|es| - 1];
      EscapedExtras(es[..|es| - 1]) + [Extra(MakeXmlConform(e.key), MakeXmlConform(e.valueType))]
  }

  /** One line per (escaped) extra, in list order: `open`, the key, `mid`, the type, `close`. */
  function ExtraLines(open: string, mid: string, close: string, es: seq<Extra>): string
    decreases |es|
  {
    if es == [] then ""
    else
      var e := es[|es| - 1];
      ExtraLines(open, mid, close, es[..|es| - 1]) + Row(open, e.key, mid, e.valueType, close)
  }

  /** One line with two attribute values. */
  function Row(open: string, key: string, mid: string, valueType: string, close: string): string {
    open + key + mid + valueType + close
  }

  const EXTRA_OPEN := "        <extra key=\""
  const EXTRA_MID := "\" type=\""
  const EXTRA_CLOSE := "\"/>\n"

  /** Component.globalStringsToXml. */
  function GlobalBlock(globals: seq<string>): (r: string)
    ensures r == "" <==> globals == []
  {
    if globals == [] then ""
    else "    <global>\n" + Lines("        <string value='", "'/>\n", Escaped(globals)) + "    </global>\n"
  }

  /** IntentFilter.toXml: all actions, then all categories. */
  function FilterXml(f: IntentFilter): string {
    "    <intent-filter>\n"
    + Lines("        <action name='", "'/>\n", Escaped(f.actions))
    + Lines("        <category name='", "'/>\n", Escaped(f.categories))
    + "    </intent-filter>\n"
  }

  /** Component.intentFiltersToXml: the filters in list order. */
  function FiltersXml(fs: seq<IntentFilter>): string
    decreases |fs|
  {
    if fs == [] then "" else FiltersXml(fs[..|fs| - 1]) + FilterXml(fs[|fs| - 1])
  }

  /** Component.staticStringsToXml; the class name is written unescaped. */
  function StaticBlock(name: string, typeName: string, statics: seq<string>): (r: string)
    ensures r == "" <==> statics == []
  {
    if statics == [] then ""
    else "<strings class='" + name + "' type='" + typeName + "'>\n"
         + Lines("    <string value='", "'/>\n", Escaped(statics)) + "</strings>\n"
  }

  /** A lifecycle block (`on_create`, `on_receive`, ...): strings in set order, then extras in list order. */
  function LifecycleBlock(tag: string, strings: seq<string>, extras: seq<Extra>): (r: string)
    ensures r == "" <==> strings == [] && extras == []
  {
    if extras == [] && strings == [] then ""
    else "    <" + tag + ">\n" + Lines("        <string value=\"", "\"/>\n", Escaped(strings)) + ExtraLines(EXTRA_OPEN, EXTRA_MID, EXTRA_CLOSE, EscapedExtras(extras))
         + "    </" + tag + ">\n"
  }

  /** String.valueOf(boolean). */
  function BoolText(b: bool): string {
    if b then "true" else "false"
  }

  lemma {:induction false} LinesAppend(open: string, close: string, xs: seq<string>, ys: seq<string>)
    ensures Lines(open, close, xs + ys) == Lines(open, close, xs) + Lines(open, close, ys)
    decreases |ys|
  {
    if ys == [] {
      assert xs + ys == xs;
    } else {
      var zs, init, last := xs + ys, ys[..|ys| - 1], ys[|ys| - 1];
      assert zs[..|zs| - 1] == xs + init;
      assert zs[|zs| - 1] == last;
      LinesAppend(open, close, xs, init);
      calc {
        Lines(open, close, zs);
        Lines(open, close, xs + init) + (open + last + close);
        (Lines(open, close, xs) + Lines(open, close, init)) + (open + last + close);
        Lines(open, close, xs) + (Lines(open, close, init) + (open + last + close));
      }
    }
  }

  /** addIntentFilter shows in the markup as one more filter block at the end. */
  lemma FiltersXmlSnoc(fs: seq<IntentFilter>, f: IntentFilter)
    ensures FiltersXml(fs + [f]) == FiltersXml(fs) + FilterXml(f)
  {
    assert (fs + [f])[..|fs|] == fs;
  }

  /** The number of times `c` occurs in `s`. */
  function Count(s: string, c: char): nat {
    if s == [] then 0 else (if s[0] == c then 1 else 0) + Count(s[1..], c)
  }

  lemma {:induction false} CountAppend(s: string, t: string, c: char)
    ensures Count(s + t, c) == Count(s, c) + Count(t, c)
    decreases |s|
  {
    if s == [] {
      assert s + t == t;
    } else {
      assert (s + t)[1..] == s[1..] + t;
      CountAppend(s[1..], t, c);
    }
  }

  lemma {:induction false} CountAbsent(s: string, c: char)
    requires c !in s
    ensures Count(s, c) == 0
    decreases |s|
  {
    if s != [] {
      assert forall k :: 0 <= k < |s| - 1 ==> s[1..][k] == s[k + 1];
      CountAbsent(s[1..], c);
    }
  }

  /** The quote characters that delimit XML attribute values. */
  predicate Special(c: char) {
    c == '"' || c == '\'' || c == '<' || c == '>'
  }

  /** No value holds a special character, as escaped values do not. */
  predicate Plain(vs: seq<string>, c: char) {
    forall i :: 0 <= i < |vs| ==> c !in vs[i]
  }

  lemma EscapedPlain(xs: seq<string>, c: char)
    requires Special(c)
    ensures Plain(Escaped(xs), c)
  {
  }

  /**
   * Escaping keeps every value inside its quotes: the special characters of
   * the lines are exactly those of the fixed text around each value.
   */
  lemma {:induction false} LinesSpecialCount(open: string, close: string, vs: seq<string>, c: char)
    requires Plain(vs, c)
    ensures Count(Lines(open, close, vs), c) == |vs| * (Count(open, c) + Count(close, c))
    decreases |vs|
  {
    if vs != [] {
      var init, v := vs[..|vs| - 1], vs[|vs| - 1];
      var k := Count(open, c) + Count(close, c);
      var ov := open + v;
      var line := ov + close;
      LinesSpecialCount(open, close, init, c);
      assert c !in v;
      CountAbsent(v, c);
      CountAppend(open, v, c);
      CountAppend(ov, close, c);
      assert Count(line, c) == k;
      LinesSnoc(open, close, vs);
      CountAppend(Lines(open, close, init), line, c);
      assert |vs| == |init| + 1;
      MulSucc(|init|, k);
    }
  }

  lemma MulSucc(n: nat, k: nat)
    ensures (n + 1) * k == n * k + k
  {
  }

  lemma LinesSnoc(open: string, close: string, vs: seq<string>)
    requires vs != []
    ensures Lines(open, close, vs) == Lines(open, close, vs[..|vs| - 1]) + (open + vs[|vs| - 1] + close)
  {
  }

  /** The StringBuilder loop behind every block: appends one line per element. */
  method AppendLines(out0: string, open: string, close: string, xs: seq<string>) returns (out: string)
    ensures out == out0 + Lines(open, close, Escaped(xs))
  {
    out := out0;
    var i := 0;
    while i < |xs|
      invariant 0 <= i <= |xs|
      invariant out == out0 + Lines(open, close, Escaped(xs[..i]))
    {
      assert xs[..i + 1][..i] == xs[..i];
      out := out + (open + MakeXmlConform(xs[i]) + close);
      i := i + 1;
    }
    assert xs[..i] == xs;
  }

  /** The loop over a lifecycle method's extras list. */
  method AppendExtras(out0: string, open: string, mid: string, close: string, es: seq<Extra>) returns (out: string)
    ensures out == out0 + ExtraLines(open, mid, close, EscapedExtras(es))
  {
    out := out0;
    var i := 0;
    while i < |es|
      invariant 0 <= i <= |es|
      invariant out == out0 + ExtraLines(open, mid, close, EscapedExtras(es[..i]))
    {
      var key, valueType := MakeXmlConform(es[i].key), MakeXmlConform(es[i].valueType);
      EscapedExtrasSnoc(es, i);
      ExtraLinesSnoc(open, mid, close, EscapedExtras(es[..i]), Extra(key, valueType));
      out := out + Row(open, key, mid, valueType, close);
      i := i + 1;
    }
    assert es[..i] == es;
  }

  lemma EscapedExtrasSnoc(es: seq<Extra>, i: nat)
    requires i < |es|
    ensures EscapedExtras(es[..i + 1])
         == EscapedExtras(es[..i]) + [Extra(MakeXmlConform(es[i].key), MakeXmlConform(es[i].valueType))]
  {
    assert es[..i + 1][..i] == es[..i];
  }

  lemma ExtraLinesSnoc(open: string, mid: string, close: string, vs: seq<Extra>, e: Extra)
    ensures ExtraLines(open, mid, close, vs + [e]) == ExtraLines(open, mid, close, vs) + Row(open, e.key, mid, e.valueType, close)
  {
    assert (vs + [e])[..|vs|] == vs;
  }

  /** IntentFilter.toXml. */
  method FilterToXml(f: IntentFilter) returns (out: string)
    ensures out == FilterXml(f)
  {
    out := "    <intent-filter>\n";
    out := AppendLines(out, "        <action name='", "'/>\n", f.actions);
    out := AppendLines(out, "        <category name='", "'/>\n", f.categories);
    out := out + "    </intent-filter>\n";
  }

  /** Component.intentFiltersToXml. */
  method FiltersToXml(fs: seq<IntentFilter>) returns (out: string)
    ensures out == FiltersXml(fs)
  {
    out := "";
    var i := 0;
    while i < |fs|
      invariant 0 <= i <= |fs|
      invariant out == FiltersXml(fs[..i])
    {
      assert fs[..i + 1][..i] == fs[..i];
      var block := FilterToXml(fs[i]);
      out := out + block;
      i := i + 1;
    }
    assert fs[..i] == fs;
  }

  /** Component.globalStringsToXml. */
  method GlobalStringsToXml(globals: seq<string>) returns (out: string)
    ensures out == GlobalBlock(globals)
  {
    if globals != [] {
      out := "    <global>\n";
      out := AppendLines(out, "        <string value='", "'/>\n", globals);
      out := out + "    </global>\n";
    } else {
      out := "";
    }
  }

  /** The body shared by onCreateToXml, onReceiveToXml and the others, after their finalizer. */
  method LifecycleToXml(tag: string, strings: seq<string>, extras: seq<Extra>) returns (out: string)
    ensures out == LifecycleBlock(tag, strings, extras)
  {
    if extras != [] || strings != [] {
      out := "    <" + tag + ">\n";
      out := AppendLines(out, "        <string value=\"", "\"/>\n", strings);
      out := AppendExtras(out, EXTRA_OPEN, EXTRA_MID, EXTRA_CLOSE, extras);
      out := out + "    </" + tag + ">\n";
    } else {
      out := "";
    }
  }
}
