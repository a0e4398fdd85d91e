/**
 A simplified model of the CPE 2.3 naming the ingestion relies on (NISTIR 7695):
 the formatted-string binding the feed carries (section 6.2), the URI binding
 used as the record key (section 6.1), and the `part`-based classification.
 The third-party `cpe` library is not part of this model; this module stands in
 for the three calls the parser makes on it: `CPE(uri)`, the `get_*()` accessors
 and `as_uri_2_3()`.
 */
module CpeName {
  import opened Wrappers

  /** The logical value ANY as written in both bindings' source strings. */
  const Any: string := "*"

  /** Every formatted-string binding starts with this prefix. */
  const FsPrefix: string := "cpe:2.3:"

  /** Every URI binding starts with this prefix. */
  const UriPrefix: string := "cpe:/"

  /** Number of attributes in a well-formed name. */
  const AttributeCount: nat := 11

  /** The eleven attributes of a well-formed CPE name, as written in the
      formatted-string binding ("*" stands for ANY, "-" for NA). */
  datatype Attrs = Attrs(
    part: string,
    vendor: string,
    product: string,
    version: string,
    update: string,
    edition: string,
    language: string,
    swEdition: string,
    targetSw: string,
    targetHw: string,
    other: string)

  /** A parsed name as the library's `CPE` object presents it: its attributes
      and its `as_uri_2_3()` form. */
  datatype Cpe = Cpe(attrs: Attrs, uri23: string)

  /** The platform class a name belongs to, decided by its `part`. */
  datatype CpeType = Software | OperatingSystem | Hardware | Other

  /** The attributes in binding order. */
  function Components(a: Attrs): (c: seq<string>)
    ensures |c| == AttributeCount
  {
    [a.part, a.vendor, a.product, a.version, a.update, a.edition,
     a.language, a.swEdition, a.targetSw, a.targetHw, a.other]
  }

  function FromComponents(c: seq<string>): (a: Attrs)
    requires |c| == AttributeCount
    ensures Components(a) == c
  {
    Attrs(c[0], c[1], c[2], c[3], c[4], c[5], c[6], c[7], c[8], c[9], c[10])
  }

  // ---------------------------------------------------------------------------
  // Splitting on a separator and joining back

  /** Position of the first `c` in `s`. */
  function IndexOf(s: string, c: char): (i: nat)
    requires c in s
    ensures i < |s| && s[i] == c
    ensures c !in s[..i]
  {
    if s[0] == c then 0
    else
      var j := IndexOf(s[1..], c);
      assert s[..j + 1] == [s[0]] + s[1..][..j];
      j + 1
  }

  /** The parts separated by single `sep` characters. */
  function Join(parts: seq<string>, sep: char): string
  {
    if |parts| == 0 then ""
    else if |parts| == 1 then parts[0]
    else parts[0] + [sep] + Join(parts[1..], sep)
  }

  /** Splits `s` at every `sep`; joining the pieces back gives `s` again. */
  function Split(s: string, sep: char): (parts: seq<string>)
    ensures |parts| >= 1
    ensures forall i :: 0 <= i < |parts| ==> sep !in parts[i]
    ensures Join(parts, sep) == s
    decreases |s|
  {
    if sep !in s then [s]
    else
      var i := IndexOf(s, sep);
      var rest := Split(s[i + 1..], sep);
      var parts := [s[..i]] + rest;
      assert parts[1..] == rest;
      assert s == s[..i] + [sep] + s[i + 1..];
      parts
  }

  /** The first separator of `p + [sep] + t` is the one after `p`. */
  lemma IndexOfAfterPiece(p: string, sep: char, t: string)
    requires sep !in p
    ensures IndexOf(p + [sep] + t, sep) == |p|
  {
    var s := p + [sep] + t;
    assert s[..|p|] == p;
    assert s[|p|] == sep;
  }

  /** Splitting `p + [sep] + t` for a separator-free `p` peels off `p`. */
  lemma SplitCons(p: string, sep: char, t: string)
    requires sep !in p
    ensures Split(p + [sep] + t, sep) == [p] + Split(t, sep)
  {
    var s := p + [sep] + t;
    IndexOfAfterPiece(p, sep, t);
    assert s[..|p|] == p;
    assert s[|p| + 1..] == t;
  }

  /** Splitting the join of separator-free pieces gives the pieces back. */
  lemma {:induction false} SplitJoin(parts: seq<string>, sep: char)
    requires |parts| >= 1
    requires forall i :: 0 <= i < |parts| ==> sep !in parts[i]
    ensures Split(Join(parts, sep), sep) == parts
    decreases |parts|
  {
    if |parts| == 1 {
      assert Join(parts, sep) == parts[0];
    } else {
      var rest := parts[1..];
      assert Join(parts, sep) == parts[0] + [sep] + Join(rest, sep);
      SplitCons(parts[0], sep, Join(rest, sep));
      SplitJoin(rest, sep);
      assert parts == [parts[0]] + rest;
    }
  }

  // ---------------------------------------------------------------------------
  // Formatted-string binding (section 6.2): the form `cpe23Uri` carries

  /** The part values the simplified parser accepts: application, operating
      system, hardware, or ANY. */
  predicate ValidPart(p: string)
  {
    p == "a" || p == "o" || p == "h" || p == Any
  }

  /** A value the formatted-string parser accepts: not empty, and free of
      the separator `:` and of `~`, which section 6.2 allows only quoted and
      which the URI binding uses to pack the extended attributes. */
  predicate ValidValue(v: string)
  {
    |v| > 0 && ':' !in v && '~' !in v
  }

  /** A name the formatted-string parser can produce: a valid part and eleven
      valid values. */
  predicate WellFormed(a: Attrs)
  {
    && ValidPart(a.part)
    && forall i :: 0 <= i < AttributeCount ==> ValidValue(Components(a)[i])
  }

  /** The formatted-string binding of a name. */
  function FormatFs(a: Attrs): string
  {
    FsPrefix + Join(Components(a), ':')
  }

  /** A library object as `CPE(s)` builds it from a formatted string: the
      name is well formed and the URI form is its URI binding. */
  predicate Coherent(c: Cpe)
  {
    WellFormed(c.attrs) && c.uri23 == UriBinding(c.attrs)
  }

  /** The colon-separated fields of a formatted string that the parser
      accepts: eleven of them, a valid part, none empty and none holding an
      unquoted `~`. */
  predicate ValidFields(fields: seq<string>)
  {
    && |fields| == AttributeCount
    && ValidPart(fields[0])
    && forall i :: 0 <= i < |fields| ==> |fields[i]| > 0 && '~' !in fields[i]
  }

  /** `CPE(cpe23Uri)` for a 2.3 formatted string: `None` where the library
      raises. A parsed name is well formed, formatting it again gives back
      exactly the string that was parsed, and its URI form is its URI binding. */
  function ParseCpe(s: string): (r: Option<Cpe>)
    ensures r.Some? ==> Coherent(r.value) && FormatFs(r.value.attrs) == s
  {
    if |s| < |FsPrefix| || s[..|FsPrefix|] != FsPrefix then None
    else
      var body := s[|FsPrefix|..];
      var fields := Split(body, ':');
      if ValidFields(fields) then
        var a := FromComponents(fields);
        assert s == FsPrefix + body;
        Some(Cpe(a, UriBinding(a)))
      else None
  }

  /** Round trip: every well-formed name survives formatting and re-parsing. */
  lemma FormatParse(a: Attrs)
    requires WellFormed(a)
    ensures ParseCpe(FormatFs(a)) == Some(Cpe(a, UriBinding(a)))
  {
    var c := Components(a);
    var s := FormatFs(a);
    WellFormedFields(a);
    assert s[..|FsPrefix|] == FsPrefix && Split(s[|FsPrefix|..], ':') == c by {
      assert s[|FsPrefix|..] == Join(c, ':');
      SplitJoin(c, ':');
    }
    ParseFields(s, c);
  }

  /** The fields of a well-formed name are valid and free of colons. */
  lemma WellFormedFields(a: Attrs)
    requires WellFormed(a)
    ensures ValidFields(Components(a))
    ensures forall i :: 0 <= i < |Components(a)| ==> ':' !in Components(a)[i]
  {
  }

  /** A string with the formatted-string prefix whose fields are valid
      parses to the name those fields spell. */
  lemma ParseFields(s: string, c: seq<string>)
    requires |s| >= |FsPrefix| && s[..|FsPrefix|] == FsPrefix
    requires Split(s[|FsPrefix|..], ':') == c
    requires ValidFields(c)
    ensures ParseCpe(s) == Some(Cpe(FromComponents(c), UriBinding(FromComponents(c))))
  {
  }

  /** The application name used in the worked examples: vendor `acme`,
      product `widget`, version `1.0`, every other attribute ANY. */
  const Widget: Attrs := Attrs("a", "acme", "widget", "1.0", Any, Any, Any, Any, Any, Any, Any)

  lemma WidgetIsWellFormed()
    ensures WellFormed(Widget)
  {
    var c := Components(Widget);
    assert c == ["a", "acme", "widget", "1.0", Any, Any, Any, Any, Any, Any, Any];
    forall i | 0 <= i < AttributeCount
      ensures ValidValue(c[i])
    {
    }
  }

  /** Parsing accepts exactly the formatted strings of well-formed names. */
  lemma ParseCpeExactly(s: string, a: Attrs)
    ensures (ParseCpe(s).Some? && ParseCpe(s).value.attrs == a) <==> WellFormed(a) && s == FormatFs(a)
  {
    if WellFormed(a) && s == FormatFs(a) {
      FormatParse(a);
    }
  }

  // ---------------------------------------------------------------------------
  // Classification (`is_application`, `is_operating_system`, `is_hardware`)

  /** The type the parser assigns: the three tests are tried in order, and a
      name that passes none of them is `Other`. */
  function Classify(a: Attrs): (t: CpeType)
    ensures t == Software <==> a.part == "a"
    ensures t == OperatingSystem <==> a.part == "o"
    ensures t == Hardware <==> a.part == "h"
    ensures t == Other <==> a.part !in {"a", "o", "h"}
  {
    if a.part == "a" then Software
    else if a.part == "o" then OperatingSystem
    else if a.part == "h" then Hardware
    else Other
  }

  // ---------------------------------------------------------------------------
  // URI binding (section 6.1.2): the form `as_uri_2_3()` returns

  /** One attribute in the URI binding: ANY becomes the empty string. */
  function UriValue(v: string): string
  {
    if v == Any then "" else v
  }

  /** The edition component: the five extended attributes are packed behind
      `~` unless the last four are all ANY. */
  function PackedEdition(a: Attrs): string
  {
    if a.swEdition == Any && a.targetSw == Any && a.targetHw == Any && a.other == Any then
      UriValue(a.edition)
    else
      "~" + UriValue(a.edition) + "~" + UriValue(a.swEdition) + "~" + UriValue(a.targetSw)
      + "~" + UriValue(a.targetHw) + "~" + UriValue(a.other)
  }

  /** `s` without its trailing colons. */
  function TrimColons(s: string): (t: string)
    ensures t <= s
    ensures |t| == 0 || t[|t| - 1] != ':'
    ensures forall i :: |t| <= i < |s| ==> s[i] == ':'
  {
    if |s| > 0 && s[|s| - 1] == ':' then TrimColons(s[..|s| - 1]) else s
  }

  /** Number of components in a URI binding. */
  const UriComponentCount: nat := 7

  /** The seven URI components, in order. */
  function UriComponents(a: Attrs): (c: seq<string>)
    ensures |c| == UriComponentCount
  {
    [UriValue(a.part), UriValue(a.vendor), UriValue(a.product), UriValue(a.version),
     UriValue(a.update), PackedEdition(a), UriValue(a.language)]
  }

  /** `as_uri_2_3()`: the URI binding of a name, the key a record is stored
      under. `UriRoundTrip` shows it identifies a well-formed name. */
  function UriBinding(a: Attrs): (uri: string)
    ensures UriPrefix <= uri
    ensures |uri| == |UriPrefix| || uri[|uri| - 1] != ':'
  {
    UriPrefix + TrimColons(Join(UriComponents(a), ':'))
  }

  // ---------------------------------------------------------------------------
  // Reading a URI binding back

  /** How often `c` occurs in `s`. */
  function Occurrences(s: string, c: char): nat
  {
    if s == [] then 0 else (if s[0] == c then 1 else 0) + Occurrences(s[1..], c)
  }

  /** `n` copies of `c`. */
  function Repeat(c: char, n: nat): (s: string)
    ensures |s| == n
    ensures forall i :: 0 <= i < n ==> s[i] == c
  {
    if n == 0 then [] else [c] + Repeat(c, n - 1)
  }

  /** One URI value read back: the empty string stands for ANY. */
  function DecodeValue(v: string): string
  {
    if v == "" then Any else v
  }

  /** The five values packed into the edition component: behind `~` when it
      starts with one, otherwise the edition alone with the other four ANY. */
  function UnpackEdition(e: string): Option<seq<string>>
  {
    if |e| > 0 && e[0] == '~' then
      var p := Split(e[1..], '~');
      if |p| == 5 then
        Some([DecodeValue(p[0]), DecodeValue(p[1]), DecodeValue(p[2]), DecodeValue(p[3]), DecodeValue(p[4])])
      else None
    else Some([DecodeValue(e), Any, Any, Any, Any])
  }

  /** The attributes seven URI components stand for. */
  function FromUriComponents(c: seq<string>): Option<Attrs>
  {
    if |c| != UriComponentCount then None
    else
      match UnpackEdition(c[5])
      case None => None
      case Some(x) =>
        Some(Attrs(DecodeValue(c[0]), DecodeValue(c[1]), DecodeValue(c[2]), DecodeValue(c[3]),
                   DecodeValue(c[4]), x[0], DecodeValue(c[6]), x[1], x[2], x[3], x[4]))
  }

  /** Reads the attributes back from a URI binding: the trailing components
      the binding trimmed are restored as empty ones, the string is split at
      its colons, and the edition component is unpacked. */
  function UriDecode(uri: string): Option<Attrs>
  {
    if !(UriPrefix <= uri) then None
    else
      var t := uri[|UriPrefix|..];
      var n := Occurrences(t, ':');
      if n >= UriComponentCount then None
      else FromUriComponents(Split(RestoreColons(t, n), ':'))
  }

  /** `t` followed by the colons that bring it to six separators, given that
      it holds `n` of them. */
  function RestoreColons(t: string, n: nat): string
    requires n < UriComponentCount
  {
    t + Repeat(':', UriComponentCount - 1 - n)
  }

  lemma {:induction false} OccurrencesAppend(s: string, t: string, c: char)
    ensures Occurrences(s + t, c) == Occurrences(s, c) + Occurrences(t, c)
    decreases |s|
  {
    if s == [] {
      assert s + t == t;
    } else {
      assert (s + t)[1..] == s[1..] + t;
      OccurrencesAppend(s[1..], t, c);
    }
  }

  lemma {:induction false} OccurrencesAbsent(s: string, c: char)
    requires c !in s
    ensures Occurrences(s, c) == 0
    decreases |s|
  {
    if s != [] {
      assert s[0] in s;
      assert forall x :: x in s[1..] ==> x in s;
      OccurrencesAbsent(s[1..], c);
    }
  }

  lemma {:induction false} OccurrencesRepeat(c: char, n: nat)
    ensures Occurrences(Repeat(c, n), c) == n
  {
    if n > 0 {
      assert Repeat(c, n)[1..] == Repeat(c, n - 1);
      OccurrencesRepeat(c, n - 1);
    }
  }

  /** Joining `k` separator-free pieces puts exactly `k - 1` separators in. */
  lemma {:induction false} OccurrencesJoin(parts: seq<string>, sep: char)
    requires |parts| >= 1
    requires forall i :: 0 <= i < |parts| ==> sep !in parts[i]
    ensures Occurrences(Join(parts, sep), sep) == |parts| - 1
    decreases |parts|
  {
    OccurrencesAbsent(parts[0], sep);
    if |parts| > 1 {
      var rest := parts[1..];
      OccurrencesJoin(rest, sep);
      OccurrencesAppend(parts[0], [sep], sep);
      OccurrencesAppend(parts[0] + [sep], Join(rest, sep), sep);
      assert Occurrences([sep], sep) == 1;
    }
  }

  /** Trimming removed only colons, so they can be appended again. */
  lemma TrimmedColons(s: string)
    ensures s == TrimColons(s) + Repeat(':', |s| - |TrimColons(s)|)
  {
    var t := TrimColons(s);
    assert s[..|t|] == t;
    assert s[|t|..] == Repeat(':', |s| - |t|);
    assert s == s[..|t|] + s[|t|..];
  }

  /** Every attribute of a well-formed name is a valid value. */
  lemma WellFormedValues(a: Attrs)
    requires WellFormed(a)
    ensures ValidValue(a.part) && ValidValue(a.vendor) && ValidValue(a.product)
    ensures ValidValue(a.version) && ValidValue(a.update) && ValidValue(a.edition)
    ensures ValidValue(a.language) && ValidValue(a.swEdition) && ValidValue(a.targetSw)
    ensures ValidValue(a.targetHw) && ValidValue(a.other)
  {
    var c := Components(a);
    assert ValidValue(c[0]) && ValidValue(c[1]) && ValidValue(c[2]) && ValidValue(c[3]);
    assert ValidValue(c[4]) && ValidValue(c[5]) && ValidValue(c[6]) && ValidValue(c[7]);
    assert ValidValue(c[8]) && ValidValue(c[9]) && ValidValue(c[10]);
  }

  /** A value of a well-formed name survives the URI encoding of ANY. */
  lemma DecodeUriValue(v: string)
    requires ValidValue(v)
    ensures DecodeValue(UriValue(v)) == v
    ensures ':' !in UriValue(v) && '~' !in UriValue(v)
  {
  }

  /** Five `~`-free values packed behind `~` unpack to themselves. */
  lemma UnpackFive(v0: string, v1: string, v2: string, v3: string, v4: string)
    requires '~' !in v0 && '~' !in v1 && '~' !in v2 && '~' !in v3 && '~' !in v4
    ensures UnpackEdition("~" + v0 + "~" + v1 + "~" + v2 + "~" + v3 + "~" + v4)
            == Some([DecodeValue(v0), DecodeValue(v1), DecodeValue(v2), DecodeValue(v3), DecodeValue(v4)])
  {
    var e := "~" + v0 + "~" + v1 + "~" + v2 + "~" + v3 + "~" + v4;
    var p := [v0, v1, v2, v3, v4];
    assert Join(p[4..], '~') == v4;
    assert Join(p[3..], '~') == v3 + "~" + v4 by { assert p[3..][1..] == p[4..]; }
    assert Join(p[2..], '~') == v2 + "~" + (v3 + "~" + v4) by { assert p[2..][1..] == p[3..]; }
    assert Join(p[1..], '~') == v1 + "~" + (v2 + "~" + (v3 + "~" + v4)) by { assert p[1..][1..] == p[2..]; }
    assert Join(p, '~') == v0 + "~" + (v1 + "~" + (v2 + "~" + (v3 + "~" + v4)));
    assert e[1..] == Join(p, '~');
    SplitJoin(p, '~');
  }

  /** The edition component of a name with valid extended values unpacks to its five
      extended values, and holds no colon. */
  lemma UnpackPackedEdition(a: Attrs)
    requires ValidValue(a.edition) && ValidValue(a.swEdition) && ValidValue(a.targetSw)
    requires ValidValue(a.targetHw) && ValidValue(a.other)
    ensures UnpackEdition(PackedEdition(a)) == Some([a.edition, a.swEdition, a.targetSw, a.targetHw, a.other])
    ensures ':' !in PackedEdition(a)
  {
    if a.swEdition == Any && a.targetSw == Any && a.targetHw == Any && a.other == Any {
      UnpackPlain(a.edition);
    } else {
      DecodeUriValue(a.edition);
      DecodeUriValue(a.swEdition);
      DecodeUriValue(a.targetSw);
      DecodeUriValue(a.targetHw);
      DecodeUriValue(a.other);
      UnpackFive(UriValue(a.edition), UriValue(a.swEdition), UriValue(a.targetSw), UriValue(a.targetHw), UriValue(a.other));
    }
  }

  /** An edition without packed extended values unpacks to itself, with
      the other four ANY. */
  lemma UnpackPlain(e: string)
    requires ValidValue(e)
    ensures UnpackEdition(UriValue(e)) == Some([e, Any, Any, Any, Any])
    ensures ':' !in UriValue(e)
  {
    DecodeUriValue(e);
    assert UriValue(e) == "" || '~' !in UriValue(e);
  }


  /** The URI components of a well-formed name are free of colons, and
      each one reads back to the attributes it came from. */
  lemma UriComponentsColonFree(a: Attrs)
    requires WellFormed(a)
    ensures forall i :: 0 <= i < UriComponentCount ==> ':' !in UriComponents(a)[i]
  {
    WellFormedValues(a);
    UnpackPackedEdition(a);
  }

  /** The components of a well-formed name read back to the name. */
  lemma FromUriComponentsOf(a: Attrs)
    requires WellFormed(a)
    ensures FromUriComponents(UriComponents(a)) == Some(a)
  {
    WellFormedValues(a);
    UnpackPackedEdition(a);
    DecodeUriValue(a.part);
    DecodeUriValue(a.vendor);
    DecodeUriValue(a.product);
    DecodeUriValue(a.version);
    DecodeUriValue(a.update);
    DecodeUriValue(a.language);
  }

  /** Restoring the trimmed colons gives back the joined components: the
      join of seven colon-free components has exactly six colons. */
  lemma RestoreTrimmed(c: seq<string>)
    requires |c| == UriComponentCount
    requires forall i :: 0 <= i < |c| ==> ':' !in c[i]
    ensures var t := TrimColons(Join(c, ':'));
            && Occurrences(t, ':') < UriComponentCount
            && RestoreColons(t, Occurrences(t, ':')) == Join(c, ':')
  {
    var j := Join(c, ':');
    var t := TrimColons(j);
    OccurrencesJoin(c, ':');
    TrimmedColons(j);
    OccurrencesAppend(t, Repeat(':', |j| - |t|), ':');
    OccurrencesRepeat(':', |j| - |t|);
  }

  /** Decoding a binding whose trimmed colons restore to the join of seven
      colon-free components reads those components. */
  lemma DecodeRestored(t: string, c: seq<string>)
    requires |c| == UriComponentCount
    requires forall i :: 0 <= i < |c| ==> ':' !in c[i]
    requires Occurrences(t, ':') < UriComponentCount
    requires RestoreColons(t, Occurrences(t, ':')) == Join(c, ':')
    ensures UriDecode(UriPrefix + t) == FromUriComponents(c)
  {
    var u := UriPrefix + t;
    assert u[..|UriPrefix|] == UriPrefix;
    assert u[|UriPrefix|..] == t;
    SplitJoin(c, ':');
  }

  /** Round trip: the decoder gives back every attribute of a well-formed
      name from its URI binding. */
  lemma UriRoundTrip(a: Attrs)
    requires WellFormed(a)
    ensures UriDecode(UriBinding(a)) == Some(a)
  {
    var c := UriComponents(a);
    UriComponentsColonFree(a);
    RestoreTrimmed(c);
    DecodeRestored(TrimColons(Join(c, ':')), c);
    FromUriComponentsOf(a);
  }

  /** The key identifies the name: two well-formed names with the same URI
      binding are the same name, so an upsert by key never merges two
      different names. */
  lemma UriKeyIdentifiesName(a: Attrs, b: Attrs)
    requires WellFormed(a) && WellFormed(b)
    requires UriBinding(a) == UriBinding(b)
    ensures a == b
  {
    UriRoundTrip(a);
    UriRoundTrip(b);
  }

  /** The type a URI binding announces by its first component. */
  function UriType(uri: string): CpeType
  {
    if |uri| <= |UriPrefix| then Other
    else if uri[|UriPrefix|] == 'a' then Software
    else if uri[|UriPrefix|] == 'o' then OperatingSystem
    else if uri[|UriPrefix|] == 'h' then Hardware
    else Other
  }

  /** The key of a well-formed name determines its type: the class the parser
      assigns can be read back from the URI binding alone. */
  lemma UriDeterminesType(a: Attrs)
    requires WellFormed(a)
    ensures UriType(UriBinding(a)) == Classify(a)
  {
    var c := UriComponents(a);
    var j := Join(c, ':');
    var t := TrimColons(j);
    assert j == c[0] + [':'] + Join(c[1..], ':');
    if a.part == Any {
      assert j[0] == ':';
      if |t| > 0 {
        assert t[0] == j[0];
      }
    } else {
      assert c[0] == a.part && |a.part| == 1;
      assert j[0] == a.part[0];
      assert j[0] != ':';
      assert t[0] == j[0];
    }
    assert UriBinding(a) == UriPrefix + t;
  }

  /** Two well-formed names with the same URI binding have the same type. */
  lemma SameUriSameType(a: Attrs, b: Attrs)
    requires WellFormed(a) && WellFormed(b)
    requires UriBinding(a) == UriBinding(b)
    ensures Classify(a) == Classify(b)
  {
    UriDeterminesType(a);
    UriDeterminesType(b);
  }
}
