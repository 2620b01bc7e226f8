/**
 The computer-type token parser used when reading report rows: it trims the
 token and compares it with the names "Desktop" and "Laptop" under a chosen
 string comparison (case-insensitive by default).
 */
module ComputerTypeConverter {
  import opened Installations

  /** The comparison modes the converter is used with. */
  datatype StringComparison = Ordinal | OrdinalIgnoreCase

  /** The enumeration member's own name, as `nameof` gives it. */
  function TypeName(t: ComputerType): string
  {
    match t
    case Desktop => "Desktop"
    case Laptop => "Laptop"
  }

  /** White space removed by trimming (the ASCII white-space characters). */
  predicate IsWhiteSpace(c: char)
  {
    c == ' ' || '\t' <= c <= '\r'
  }

  predicate AllWhiteSpace(s: string)
  {
    forall i :: 0 <= i < |s| ==> IsWhiteSpace(s[i])
  }

  /** Neither end of `s` is white space. */
  predicate Trimmed(s: string)
  {
    s == [] || (!IsWhiteSpace(s[0]) && !IsWhiteSpace(s[|s| - 1]))
  }

  function TrimStart(s: string): (r: string)
    ensures |r| <= |s|
    ensures r == [] || !IsWhiteSpace(r[0])
    ensures r == s[|s| - |r|..]
  {
    if s != [] && IsWhiteSpace(s[0]) then TrimStart(s[1..]) else s
  }

  function TrimEnd(s: string): (r: string)
    ensures |r| <= |s|
    ensures r == [] || !IsWhiteSpace(r[|r| - 1])
    ensures r == s[..|r|]
  {
    if s != [] && IsWhiteSpace(s[|s| - 1]) then TrimEnd(s[..|s| - 1]) else s
  }

  /** `s` without leading and trailing white space. */
  function Trim(s: string): (r: string)
    ensures Trimmed(r)
  {
    TrimEnd(TrimStart(s))
  }

  /** Upper-case mapping of the ASCII letters; every other character is itself. */
  function ToUpper(c: char): char
  {
    if 'a' <= c <= 'z' then (c as int - 32) as char else c
  }

  predicate EqualsIgnoreCase(a: string, b: string)
  {
    |a| == |b| && forall i :: 0 <= i < |a| ==> ToUpper(a[i]) == ToUpper(b[i])
  }

  predicate StringEquals(a: string, b: string, comparison: StringComparison)
  {
    match comparison
    case Ordinal => a == b
    case OrdinalIgnoreCase => EqualsIgnoreCase(a, b)
  }

  datatype Converter = Converter(stringComparison: StringComparison)
  {
    /**
     Parse a computer-type token. The result is Desktop unless Laptop was
     recognised; the flag says whether the token was recognised at all.
     */
    function InternalConvert(value: string): (r: (bool, ComputerType))
      ensures !r.0 ==> r.1 == Desktop
      ensures r.0 <==> exists t :: StringEquals(TypeName(t), Trim(value), stringComparison)
      ensures r.0 ==> StringEquals(TypeName(r.1), Trim(value), stringComparison)
    {
      var trimmedValue := Trim(value);
      if StringEquals(TypeName(Desktop), trimmedValue, stringComparison) then (true, Desktop)
      else if StringEquals(TypeName(Laptop), trimmedValue, stringComparison) then (true, Laptop)
      else
        assert !StringEquals(TypeName(Desktop), trimmedValue, stringComparison);
        (false, Desktop)
    }
  }

  /** The default converter compares ignoring case. */
  const DefaultConverter := Converter(OrdinalIgnoreCase)

  // ---------------------------------------------------------------------
  // Trimming.

  lemma {:induction false} TrimStartSkips(p: string, w: string)
    requires AllWhiteSpace(p) && (w == [] || !IsWhiteSpace(w[0]))
    ensures TrimStart(p + w) == w
    decreases |p|
  {
    if p == [] {
      assert p + w == w;
    } else {
      assert (p + w)[1..] == p[1..] + w;
      TrimStartSkips(p[1..], w);
    }
  }

  lemma {:induction false} TrimEndSkips(w: string, q: string)
    requires AllWhiteSpace(q) && (w == [] || !IsWhiteSpace(w[|w| - 1]))
    ensures TrimEnd(w + q) == w
    decreases |q|
  {
    if q == [] {
      assert w + q == w;
    } else {
      assert (w + q)[..|w + q| - 1] == w + q[..|q| - 1];
      TrimEndSkips(w, q[..|q| - 1]);
    }
  }

  /** Trimming removes exactly the white space around a trimmed core. */
  lemma TrimPadded(p: string, v: string, q: string)
    requires AllWhiteSpace(p) && AllWhiteSpace(q) && Trimmed(v)
    ensures Trim(p + v + q) == v
  {
    if v == [] {
      assert p + v + q == p + q + v;
      TrimStartSkips(p + q, v);
    } else {
      assert p + v + q == p + (v + q);
      TrimStartSkips(p, v + q);
      TrimEndSkips(v, q);
    }
  }

  lemma TrimIdempotent(s: string)
    ensures Trim(Trim(s)) == Trim(s)
  {
    assert [] + Trim(s) + [] == Trim(s);
    TrimPadded([], Trim(s), []);
  }

  // ---------------------------------------------------------------------
  // Conversion.

  /** The two names are told apart by every comparison: no token is both. */
  lemma NamesDistinct(s: string, comparison: StringComparison)
    ensures !(StringEquals(TypeName(Desktop), s, comparison) && StringEquals(TypeName(Laptop), s, comparison))
  {
  }

  /** A case variant of a type name has letters at both ends, so it is already trimmed. */
  lemma CaseVariantTrimmed(t: ComputerType, v: string)
    requires EqualsIgnoreCase(TypeName(t), v)
    ensures Trimmed(v)
  {
    assert ToUpper(v[0]) == ToUpper(TypeName(t)[0]);
    assert ToUpper(v[|v| - 1]) == ToUpper(TypeName(t)[|v| - 1]);
  }

  /**
   Under the default comparison, any case variant of a type name, with any
   white space around it, converts to that type.
   */
  lemma ConvertIgnoresCaseAndPadding(p: string, v: string, q: string, t: ComputerType)
    requires AllWhiteSpace(p) && AllWhiteSpace(q)
    requires EqualsIgnoreCase(TypeName(t), v)
    ensures DefaultConverter.InternalConvert(p + v + q) == (true, t)
  {
    CaseVariantTrimmed(t, v);
    TrimPadded(p, v, q);
    NamesDistinct(v, OrdinalIgnoreCase);
  }

  lemma EqualsReflexive(s: string, comparison: StringComparison)
    ensures StringEquals(s, s, comparison)
  {
  }

  lemma TrimName(t: ComputerType)
    ensures Trim(TypeName(t)) == TypeName(t)
  {
    assert [] + TypeName(t) + [] == TypeName(t);
    TrimPadded([], TypeName(t), []);
  }

  lemma ConvertTypeName(t: ComputerType, comparison: StringComparison)
    ensures Converter(comparison).InternalConvert(TypeName(t)) == (true, t)
  {
    TrimName(t);
    EqualsReflexive(TypeName(t), comparison);
    if t == Laptop {
      assert !StringEquals(TypeName(Desktop), TypeName(Laptop), comparison) by {
        assert |TypeName(Desktop)| == 7 && |TypeName(Laptop)| == 6;
      }
    }
  }

  /** Under Ordinal comparison only the exact names, possibly padded, are accepted. */
  lemma OrdinalIsExact(value: string)
    ensures Converter(Ordinal).InternalConvert(value).0 ==>
      Trim(value) == TypeName(Converter(Ordinal).InternalConvert(value).1)
  {
  }

  lemma DesktopLowerCaseVariant()
    ensures EqualsIgnoreCase(TypeName(Desktop), "desktop")
  {
    assert ToUpper('d') == 'D' && ToUpper('e') == 'E' && ToUpper('s') == 'S' && ToUpper('k') == 'K';
    assert ToUpper('t') == 'T' && ToUpper('o') == 'O' && ToUpper('p') == 'P' && ToUpper('D') == 'D';
  }

  lemma LaptopLowerCaseVariant()
    ensures EqualsIgnoreCase(TypeName(Laptop), "laptop")
  {
    assert ToUpper('l') == 'L' && ToUpper('a') == 'A' && ToUpper('p') == 'P' && ToUpper('t') == 'T';
    assert ToUpper('o') == 'O' && ToUpper('L') == 'L';
  }

  /** Lower-case names are accepted by the default comparison. */
  lemma LowerCaseDesktop()
    ensures DefaultConverter.InternalConvert("desktop") == (true, Desktop)
  {
    DesktopLowerCaseVariant();
    assert "desktop" == [] + "desktop" + [];
    ConvertIgnoresCaseAndPadding([], "desktop", [], Desktop);
  }

  lemma LowerCaseLaptop()
    ensures DefaultConverter.InternalConvert("laptop") == (true, Laptop)
  {
    LaptopLowerCaseVariant();
    assert "laptop" == [] + "laptop" + [];
    ConvertIgnoresCaseAndPadding([], "laptop", [], Laptop);
  }

  /** Mixed case with surrounding blanks is accepted by the default comparison. */
  lemma PaddedMixedCaseDesktop()
    ensures DefaultConverter.InternalConvert(" DESKTop  ") == (true, Desktop)
  {
    assert ToUpper('e') == 'E' && ToUpper('s') == 'S' && ToUpper('k') == 'K' && ToUpper('t') == 'T';
    assert ToUpper('o') == 'O' && ToUpper('p') == 'P' && ToUpper('D') == 'D' && ToUpper('E') == 'E';
    assert ToUpper('S') == 'S' && ToUpper('K') == 'K' && ToUpper('T') == 'T';
    assert " DESKTop  " == " " + "DESKTop" + "  ";
    ConvertIgnoresCaseAndPadding(" ", "DESKTop", "  ", Desktop);
  }

  lemma PaddedMixedCaseLaptop()
    ensures DefaultConverter.InternalConvert(" LaptoP  ") == (true, Laptop)
  {
    assert ToUpper('a') == 'A' && ToUpper('p') == 'P' && ToUpper('t') == 'T' && ToUpper('o') == 'O';
    assert ToUpper('L') == 'L' && ToUpper('P') == 'P';
    assert " LaptoP  " == " " + "LaptoP" + "  ";
    ConvertIgnoresCaseAndPadding(" ", "LaptoP", "  ", Laptop);
  }

  /** An unknown token is rejected and defaults to Desktop. */
  lemma UnknownTokenExample()
    ensures DefaultConverter.InternalConvert("surface 2") == (false, Desktop)
  {
    assert "surface 2" == [] + "surface 2" + [];
    TrimPadded([], "surface 2", []);
  }

  /** Ordinal comparison rejects a name in the wrong case. */
  lemma OrdinalRejectsUpperCase()
    ensures Converter(Ordinal).InternalConvert("LAPTOP") == (false, Desktop)
  {
    assert "LAPTOP" == [] + "LAPTOP" + [];
    TrimPadded([], "LAPTOP", []);
    assert "LAPTOP"[1] != "Laptop"[1];
  }
}
