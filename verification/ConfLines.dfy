/** Which lines of a configuration file say something, and what: by their form. */
module ConfLines {
  import opened Options
  import opened Tristate
  import opened ConfText

  // ----- numbers -----

  predicate IsNumeral(s: string) {
    && s != "" && (forall i :: 0 <= i < |s| ==> '0' <= s[i] <= '9')
    && (|s| > 1 ==> s[0] != '0')
  }

  /** An int is a decimal numeral without leading zeros, or a minus sign and one. */
  lemma ValidIntIff(s: string)
    ensures ValidInt(s) <==> IsNumeral(s) || (|s| > 0 && s[0] == '-' && IsNumeral(s[1..]))
  {
    if |s| > 0 && s[0] == '-' { assert s[0] == '-' && !IsNumeral(s); }
  }

  predicate IsHexNumeral(s: string) {
    s != "" && forall i :: 0 <= i < |s| ==> '0' <= s[i] <= '9' || 'a' <= s[i] <= 'f' || 'A' <= s[i] <= 'F'
  }

  /** A hex number is hex digits, with or without 0x in front. */
  lemma ValidHexIff(s: string)
    ensures ValidHex(s) <==> IsHexNumeral(s) || (|s| > 2 && s[..2] in {"0x", "0X"} && IsHexNumeral(s[2..]))
  {
    if |s| >= 2 {
      assert s[..2] == [s[0], s[1]];
      if HasHexMark(s) { assert !IsHexNumeral(s); }
    }
  }

  // ----- quoted texts -----

  /** Each character with a backslash in front where asked. */
  function Protect(s: string, marks: seq<bool>): string
    requires |marks| == |s|
  {
    if s == "" then "" else (if marks[0] then ['\\', s[0]] else [s[0]]) + Protect(s[1..], marks[1..])
  }

  /** Quotes and backslashes are protected; other characters may be. */
  predicate Protects(s: string, marks: seq<bool>) {
    |marks| == |s| && forall i :: 0 <= i < |s| && (s[i] == '"' || s[i] == '\\') ==> marks[i]
  }

  /** Any text whose quotes and backslashes are protected is read up to the quote behind it. */
  lemma {:induction false} ProtectedIsRead(s: string, marks: seq<bool>, rest: string)
    requires Protects(s, marks)
    ensures Unescape(Protect(s, marks) + "\"" + rest) == Some(s)
  {
    var t := Protect(s, marks) + "\"" + rest;
    if s == "" {
      assert t == "\"" + rest;
    } else {
      var more := Protect(s[1..], marks[1..]) + "\"" + rest;
      ProtectedIsRead(s[1..], marks[1..], rest);
      if marks[0] {
        assert t == ['\\', s[0]] + more && t[2..] == more;
      } else {
        assert t == [s[0]] + more && t[1..] == more;
      }
      assert [s[0]] + s[1..] == s;
    }
  }

  /** And nothing else is read: every text that is read has this form. */
  lemma {:induction false} ReadIsProtected(x: string) returns (marks: seq<bool>, rest: string)
    requires Unescape(x).Some?
    ensures Protects(Unescape(x).value, marks)
    ensures x == Protect(Unescape(x).value, marks) + "\"" + rest
  {
    var s := Unescape(x).value;
    if x[0] == '"' {
      marks, rest := [], x[1..];
      assert s == "" && x == "" + "\"" + rest;
    } else {
      var n := if x[0] == '\\' then 2 else 1;
      assert Unescape(x) == Prepend([x[n - 1]], Unescape(x[n..]));
      var ms;
      ms, rest := ReadIsProtected(x[n..]);
      marks := [n == 2] + ms;
      var inner := Unescape(x[n..]).value;
      assert s == [x[n - 1]] + inner && s[1..] == inner && marks[1..] == ms;
      assert Protect(s, marks) == x[..n] + Protect(inner, ms);
      assert x == x[..n] + (Protect(inner, ms) + "\"" + rest);
    }
  }

  // ----- values -----

  /** What stands behind the = sign, as the kind of the symbol takes it. */
  lemma ValueMeans(v: string)
    ensures ReadValue(TriKind, v) ==
      if v == "" then None else if v[0] == 'm' then Some(OfTri(Mod))
      else if v[0] == 'y' then Some(OfTri(Yes)) else if v[0] == 'n' then Some(OfTri(No)) else None
    ensures ReadValue(BoolKind, v) ==
      if v == "" then None
      else if v[0] == 'y' then Some(OfTri(Yes)) else if v[0] == 'n' then Some(OfTri(No)) else None
    ensures ReadValue(IntKind, v) ==
      if IsNumeral(v) || (|v| > 0 && v[0] == '-' && IsNumeral(v[1..])) then Some(Text(v)) else None
    ensures ReadValue(HexKind, v) ==
      if IsHexNumeral(v) || (|v| > 2 && v[..2] in {"0x", "0X"} && IsHexNumeral(v[2..])) then Some(Text(v)) else None
    ensures (v == "" || v[0] != '"') ==> ReadValue(StringKind, v) == None
  {
    hide ValidInt, ValidHex, IsNumeral, IsHexNumeral;
    ValidIntIff(v);
    ValidHexIff(v);
    if v != "" { assert v[0] == 'm' <==> "m" <= v; }
  }

  /** A string is what stands between the first quote and the next one that is not protected. */
  lemma QuotedMeans(s: string, marks: seq<bool>, rest: string)
    requires Protects(s, marks)
    ensures ReadValue(StringKind, "\"" + (Protect(s, marks) + "\"" + rest)) == Some(Text(s))
  {
    hide Unescape;
    var t := Protect(s, marks) + "\"" + rest;
    ProtectedIsRead(s, marks, rest);
    assert ("\"" + t)[1..] == t;
  }

  // ----- lines -----

  function Asks(name: string, v: Option<Value>): Assignment {
    if v.None? then Skip else Assign(name, v.value)
  }

  /** CONFIG_name=value, up to the end of the line. */
  lemma SetLineMeans(table: Table, name: string, value: string, rest: string)
    requires '=' !in name && '\n' !in value && (rest == "" || rest[0] == '\n')
    ensures ReadLine(table, "CONFIG_" + name + "=" + value + rest)
         == if name in table then Asks(name, ReadValue(table[name].kind, value)) else Skip
  {
    hide ReadValue;
    var t := "CONFIG_" + name + "=" + value + rest;
    var n := 8 + |name|;
    assert t[0] == 'C' && "CONFIG_" <= t && t[7..n - 1] == name && t[n - 1] == '=';
    FindIs(t, 7, '=', n - 1);
    assert t[n..n + |value|] == value && t[n + |value|..] == rest;
    if rest == "" {
      assert t[n..] == value;
      FindNone(t, n, '\n');
    } else {
      FindIs(t, n, '\n', n + |value|);
    }
  }

  /** # CONFIG_name is not set; the character behind the number sign is not looked at. */
  lemma UnsetLineMeans(table: Table, c: char, name: string, rest: string)
    requires ' ' !in name
    ensures ReadLine(table, ['#', c] + "CONFIG_" + name + " " + "is not set" + rest)
         == if name in table && table[name].kind in {BoolKind, TriKind} then Assign(name, OfTri(No)) else Skip
  {
    var t := ['#', c] + "CONFIG_" + name + " " + "is not set" + rest;
    var n := 9 + |name|;
    assert t[0] == '#' && t[2..9] == "CONFIG_" && t[9..n] == name && t[n] == ' ';
    FindIs(t, 9, ' ', n);
    assert t[n + 1..] == "is not set" + rest;
  }

  predicate IsSetLine(t: string, name: string, value: string, rest: string) {
    && '=' !in name && '\n' !in value && (rest == "" || rest[0] == '\n')
    && t == "CONFIG_" + name + "=" + value + rest
  }

  predicate IsUnsetLine(t: string, c: char, name: string, rest: string) {
    ' ' !in name && t == ['#', c] + "CONFIG_" + name + " " + "is not set" + rest
  }

  /** Every other line is passed over. */
  lemma OnlyTheseLines(table: Table, t: string)
    requires ReadLine(table, t).Assign?
    ensures var name := ReadLine(table, t).name;
      || (exists value, rest :: IsSetLine(t, name, value, rest))
      || (exists c, rest :: IsUnsetLine(t, c, name, rest))
  {
    hide ReadValue, IsSetLine, IsUnsetLine;
    if "#" <= t {
      assert t[0] == '#';
      var p := Find(t, 9, ' ');
      assert t[p + 1..p + 11] == t[p + 1..][..10] == "is not set";
      UnsetLineSplits(t, p);
    } else {
      var p := Find(t, 7, '=');
      assert t[..7] == "CONFIG_";
      SetLineSplits(t, p, Find(t, p + 1, '\n'));
    }
  }

  lemma UnsetLineSplits(t: string, p: nat)
    requires 9 <= p && p + 11 <= |t| && t[0] == '#' && t[2..9] == "CONFIG_" && ' ' !in t[9..p] && t[p] == ' '
    requires t[p + 1..p + 11] == "is not set"
    ensures IsUnsetLine(t, t[1], t[9..p], t[p + 11..])
  {
    assert t[..2] == ['#', t[1]] && t[p..p + 1] == " ";
    Pieces(t, 2, 9, p, p + 1, p + 11);
  }

  lemma SetLineSplits(t: string, p: nat, q: nat)
    requires 7 <= p < q <= |t| && t[..7] == "CONFIG_" && '=' !in t[7..p] && t[p] == '='
    requires '\n' !in t[p + 1..q] && (q < |t| ==> t[q] == '\n')
    ensures IsSetLine(t, t[7..p], t[p + 1..q], t[q..])
  {
    assert t[p..p + 1] == "=";
    Pieces(t, 7, p, p + 1, q, q);
    assert t[q..q] == "" && t[p + 1..q] + "" == t[p + 1..q];
  }

  lemma Pieces(t: string, a: nat, b: nat, c: nat, d: nat, e: nat)
    requires a <= b <= c <= d <= e <= |t|
    ensures t == t[..a] + t[a..b] + t[b..c] + t[c..d] + t[d..e] + t[e..]
  {
    assert t[..a] + t[a..b] == t[..b];
    assert t[..b] + t[b..c] == t[..c];
    assert t[..c] + t[c..d] == t[..d];
    assert t[..d] + t[d..e] == t[..e];
  }

  // ----- what is written -----

  /** A value n is written as a comment; y and m by their letter, text and numbers behind the = sign, a string in
      quotes and escaped. */
  lemma EntryForms(name: string, kind: Kind, v: Value)
    requires Legal(kind, v)
    ensures var t := EntryLine(name, kind, v);
      match v
      case OfTri(tri) =>
        t == if tri == No then "# CONFIG_" + name + " is not set\n" else "CONFIG_" + name + "=" + tri.Name() + "\n"
      case Text(s) =>
        t == "CONFIG_" + name + "=" + (if kind == StringKind then "\"" + Escape(s) + "\"" else s) + "\n"
  {
    if v == OfTri(Yes) { assert "CONFIG_" + name + "=y\n" == "CONFIG_" + name + "=" + "y" + "\n"; }
    if v == OfTri(Mod) { assert "CONFIG_" + name + "=m\n" == "CONFIG_" + name + "=" + "m" + "\n"; }
  }

  /** Escaping protects the quotes and backslashes and nothing else. */
  lemma {:induction false} EscapeProtects(s: string)
    ensures Escape(s) == Protect(s, seq(|s|, i requires 0 <= i < |s| => s[i] == '"' || s[i] == '\\'))
  {
    var marks := seq(|s|, i requires 0 <= i < |s| => s[i] == '"' || s[i] == '\\');
    if s != "" {
      EscapeProtects(s[1..]);
      assert marks[1..] == seq(|s| - 1, i requires 0 <= i < |s| - 1 => s[1..][i] == '"' || s[1..][i] == '\\');
    }
  }

  /** One read takes a line with its newline, the rest of the file if there is none, but never more than 1023
      characters. */
  lemma ReadTakes(file: string, n: nat)
    requires n <= |file| && '\n' !in file[..n]
    requires n == |file| || n == 1023 || (n < 1023 && file[n] == '\n')
    ensures LineLength(file) == if n >= 1023 then 1023 else if n == |file| then n else n + 1
  {
    assert file[0..n] == file[..n];
    FindBeyond(file, 0, '\n', n);
    if n < |file| && file[n] == '\n' { FindIs(file, 0, '\n', n); }
    if n == |file| { assert file[0..] == file; FindNone(file, 0, '\n'); }
  }
}
