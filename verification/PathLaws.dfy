// What NormalizePath promises: which text it returns, and what a second pass
// makes of it.
module PathLaws {
  import opened Wrappers
  import opened Text
  import opened MountPath

  // The non-empty parts, in order.
  function Kept(parts: seq<string>): seq<string> {
    if parts == [] then []
    else (if parts[0] == "" then [] else [parts[0]]) + Kept(parts[1..])
  }

  lemma {:induction false} KeptParts(parts: seq<string>)
    ensures forall p :: p in Kept(parts) <==> p in parts && p != ""
  {
    if parts != [] {
      KeptParts(parts[1..]);
    }
  }

  lemma {:induction false} KeptConcat(a: seq<string>, b: seq<string>)
    ensures Kept(a + b) == Kept(a) + Kept(b)
  {
    if a == [] {
      assert a + b == b;
    } else {
      KeptConcat(a[1..], b);
      assert (a + b)[1..] == a[1..] + b;
      var first := if a[0] == "" then [] else [a[0]];
      assert first + Kept(a[1..]) + Kept(b) == first + (Kept(a[1..]) + Kept(b));
    }
  }

  lemma {:induction false} KeptAll(parts: seq<string>)
    requires "" !in parts
    ensures Kept(parts) == parts
  {
    if parts != [] {
      KeptAll(parts[1..]);
      assert parts == [parts[0]] + parts[1..];
    }
  }

  // The canonical text of a path with these segments.
  function Form(kept: seq<string>, trailing: bool): string {
    if kept == [] then "/" else "/" + Join(kept, "/") + (if trailing then "/" else "")
  }

  function FormParts(kept: seq<string>, trailing: bool): seq<string> {
    [""] + kept + (if trailing || kept == [] then [""] else [])
  }

  lemma {:induction false} JoinTrailing(parts: seq<string>)
    requires parts != []
    ensures Join(parts + [""], "/") == Join(parts, "/") + "/"
  {
    assert (parts + [""])[1..] == parts[1..] + [""];
    if |parts| > 1 {
      JoinTrailing(parts[1..]);
    }
  }

  lemma FormIsJoin(kept: seq<string>, trailing: bool)
    ensures Form(kept, trailing) == Join(FormParts(kept, trailing), "/")
  {
    var parts := FormParts(kept, trailing);
    if kept == [] {
      assert parts == ["", ""];
    } else {
      var rest := kept + (if trailing then [""] else []);
      assert parts[1..] == rest;
      if trailing { JoinTrailing(kept); } else { assert rest == kept; }
      assert "" + "/" + Join(rest, "/") == Form(kept, trailing);
    }
  }

  lemma FormSplits(kept: seq<string>, trailing: bool)
    requires forall p :: p in kept ==> p != "" && '/' !in p
    ensures Split(Form(kept, trailing), '/') == FormParts(kept, trailing)
    ensures Kept(FormParts(kept, trailing)) == kept
  {
    FormIsJoin(kept, trailing);
    SplitJoin(FormParts(kept, trailing), '/');
    var tail := if trailing || kept == [] then [""] else [];
    KeptConcat([""], kept);
    KeptConcat([""] + kept, tail);
    KeptAll(kept);
  }

  lemma EndsInSlash(s: string)
    ensures HasSuffix(s, "/") <==> s != "" && s[|s| - 1] == '/'
  {
    if s != "" {
      assert s[|s| - 1..] == [s[|s| - 1]];
    }
  }

  // A text ends in a slash exactly when its last part is empty.
  lemma LastPart(s: string)
    requires s != ""
    ensures s[|s| - 1] == '/' <==> Split(s, '/')[|Split(s, '/')| - 1] == ""
  {
    var init, parts := s[..|s| - 1], Split(s, '/');
    var front := parts[..|parts| - 1];
    if s[|s| - 1] == '/' {
      SplitConcat(init, "", '/');
      assert s == init + ['/'] + "";
    }
    SplitParts(s, '/');
    EmptyLast(parts, front);
  }

  // Joined parts that end in an empty one end in a slash.
  lemma EmptyLast(parts: seq<string>, front: seq<string>)
    requires parts != [] && front == parts[..|parts| - 1]
    ensures parts[|parts| - 1] == "" ==>
      Join(parts, "/") == if front == [] then "" else Join(front, "/") + "/"
  {
    if parts[|parts| - 1] == "" {
      assert parts == front + [""];
      if front != [] { JoinTrailing(front); }
    }
  }

  // Without `.` and `..`, cleaning a rooted path only drops empty parts.
  lemma {:induction false} EliminateKeeps(parts: seq<string>, out: seq<string>)
    requires forall p :: p in parts ==> !IsTraversal(p)
    ensures Eliminate(parts, true, out) == out + Kept(parts)
  {
    if parts != [] {
      var p := parts[0];
      assert p in parts;
      assert forall q :: q in parts[1..] ==> q in parts;
      EliminateKeeps(parts[1..], if p == "" then out else out + [p]);
      assert out + [p] + Kept(parts[1..]) == out + ([p] + Kept(parts[1..]));
      assert out + Kept(parts[1..]) == out + ([] + Kept(parts[1..]));
    }
  }

  // What the guards leave.
  lemma Accepted(raw: string, w: string)
    requires Normalize(raw) == Ok(w)
    ensures !ScansSeparator(raw) && Unescape(raw).Some?
    ensures var d := Unescape(raw).value;
            && d != "" && d[0] == '/' && (forall p :: p in Split(d, '/') ==> !IsTraversal(p))
            && w == if HasSuffix(d, "/") && Clean(d) != "/" then Clean(d) + "/" else Clean(d)
  {
    hide Clean, Split, HasSuffix, ScansSeparator;
  }

  lemma NormalText(raw: string, w: string)
    requires Normalize(raw) == Ok(w)
    ensures Unescape(raw).Some? && Unescape(raw).value != "" && !ScansSeparator(raw)
    ensures var d := Unescape(raw).value; w == Form(Kept(Split(d, '/')), HasSuffix(d, "/"))
    ensures forall p :: p in Kept(Split(Unescape(raw).value, '/')) ==> p != "" && '/' !in p && !IsTraversal(p)
  {
    hide Normalize, Unescape, ScansSeparator, Split, HasSuffix;
    Accepted(raw, w);
    var d := Unescape(raw).value;
    var parts := Split(d, '/');
    SplitParts(d, '/');
    KeptParts(parts);
    EliminateKeeps(parts, []);
    var kept := Kept(parts);
    assert Eliminate(parts, true, []) == kept;
    assert Clean(d) == "/" + Join(kept, "/");
    if kept != [] {
      assert kept[0] in kept;
      assert |Join(kept, "/")| > 0;
    }
  }

  // When NormalizePath accepts, every segment boundary of the result was
  // written in the request: splitting the raw text and decoding each piece
  // gives the decoded pieces, and the result is those that are not empty, in
  // order, under one leading slash, with a trailing slash exactly when the
  // decoded path had one.
  lemma NormalForm(raw: string, w: string)
    requires Normalize(raw) == Ok(w)
    ensures Unescape(raw).Some?
    ensures var d := Unescape(raw).value;
            && UnescapeAll(Split(raw, '/')) == Some(Split(d, '/'))
            && Split(w, '/') == FormParts(Kept(Split(d, '/')), HasSuffix(d, "/"))
            && Kept(Split(w, '/')) == Kept(Split(d, '/'))
            && (HasSuffix(w, "/") <==> HasSuffix(d, "/"))
    ensures forall p :: p in Split(w, '/') ==> !IsTraversal(p)
  {
    hide Normalize, Unescape, UnescapeAll;
    NormalText(raw, w);
    DecodeSegments(raw);
    var d := Unescape(raw).value;
    var kept := Kept(Split(d, '/'));
    FormSplits(kept, HasSuffix(d, "/"));
    KeptParts(Split(d, '/'));
    LastPart(d);
    LastPart(w);
    EndsInSlash(d);
    EndsInSlash(w);
    if kept == [] {
      var parts := Split(d, '/');
      assert parts[|parts| - 1] in parts;
    } else {
      assert kept[|kept| - 1] in kept;
    }
  }

  // ---- The second pass ----

  lemma {:induction false} PlainText(s: string)
    requires '%' !in s
    ensures Unescape(s) == Some(s) && !ScansSeparator(s) && !HasEscape(s)
  {
    if s != "" {
      PlainText(s[1..]);
      assert [s[0]] + s[1..] == s;
    }
  }

  // A percent sign in decodable text starts an escape.
  lemma {:induction false} PercentIsEscape(s: string)
    requires '%' in s && Unescape(s).Some?
    ensures HasEscape(s)
  {
    if s[0] == '%' {
      assert EscapeAt(s, 0).Some?;
    } else {
      PercentIsEscape(s[1..]);
      var i: nat :| EscapeAt(s[1..], i).Some?;
      assert EscapeAt(s, i + 1).Some?;
    }
  }

  lemma EscapeConcat(a: string, b: string)
    ensures HasEscape(a + "/" + b) <==> HasEscape(a) || HasEscape(b)
  {
    var s := a + "/" + b;
    if HasEscape(s) {
      var i: nat :| EscapeAt(s, i).Some?;
      if i + 2 < |a| {
        assert EscapeAt(a, i).Some?;
      } else {
        assert s[|a|] == '/';
        assert EscapeAt(b, i - |a| - 1).Some?;
      }
    }
    if HasEscape(a) {
      var i: nat :| EscapeAt(a, i).Some?;
      assert EscapeAt(s, i).Some?;
    }
    if HasEscape(b) {
      var i: nat :| EscapeAt(b, i).Some?;
      assert EscapeAt(s, |a| + 1 + i).Some?;
    }
  }

  lemma {:induction false} Utf8Concat(a: string, b: string)
    ensures ValidUtf8(a + "/" + b) <==> ValidUtf8(a) && ValidUtf8(b)
    decreases |a|
  {
    var s := a + "/" + b;
    if a == "" {
      assert s[1..] == b;
    } else {
      assert s[|a|] == '/';
      var n := RuneLength(s);
      assert n == RuneLength(a);
      if n > 0 {
        Utf8Concat(a[n..], b);
        assert s[n..] == a[n..] + "/" + b;
      }
    }
  }

  predicate Printable(s: string) {
    forall c :: c in s ==> c != '\\' && !IsControl(c)
  }

  ghost predicate Checked(s: string) {
    ValidUtf8(s) && Printable(s) && !HasEscape(s)
  }

  // The checks on decoded text hold of the whole exactly when they hold of
  // every segment.
  lemma {:induction false} CheckedJoin(parts: seq<string>)
    requires parts != []
    ensures Checked(Join(parts, "/")) <==> forall p :: p in parts ==> Checked(p)
  {
    if |parts| == 1 {
      assert parts == [parts[0]];
    } else {
      var rest := Join(parts[1..], "/");
      CheckedJoin(parts[1..]);
      EscapeConcat(parts[0], rest);
      Utf8Concat(parts[0], rest);
      assert Printable(parts[0] + "/" + rest) <==> Printable(parts[0]) && Printable(rest) by {
        assert forall c :: c in parts[0] + "/" + rest <==> c in parts[0] || c == '/' || c in rest;
      }
      assert Join(parts, "/") == parts[0] + "/" + rest;
      assert Checked(parts[0] + "/" + rest) <==> Checked(parts[0]) && Checked(rest);
      assert parts == [parts[0]] + parts[1..] && parts[0] in parts;
      assert forall p :: p in parts[1..] ==> p in parts;
    }
  }

  lemma DecodedChecked(raw: string, w: string)
    requires Normalize(raw) == Ok(w)
    ensures Unescape(raw).Some? && Checked(Unescape(raw).value)
  {
    hide Unescape, ScansSeparator, Split, Clean, ValidUtf8;
  }

  lemma NothingChecked()
    ensures Checked("")
  {
    PlainText("");
  }

  lemma OutputChecked(raw: string, w: string)
    requires Normalize(raw) == Ok(w)
    ensures Checked(w)
  {
    hide Normalize, Unescape, Clean, ScansSeparator, Checked;
    NormalText(raw, w);
    DecodedChecked(raw, w);
    var d := Unescape(raw).value;
    SplitParts(d, '/');
    CheckedJoin(Split(d, '/'));
    var kept, trailing := Kept(Split(d, '/')), HasSuffix(d, "/");
    KeptParts(Split(d, '/'));
    FormIsJoin(kept, trailing);
    NothingChecked();
    CheckedJoin(FormParts(kept, trailing));
  }

  // A second pass accepts an output exactly when no percent sign survived in
  // it, and then returns it unchanged.
  lemma SecondPass(raw: string, w: string)
    requires Normalize(raw) == Ok(w)
    ensures Normalize(w).Ok? <==> '%' !in w
    ensures Normalize(w).Ok? ==> Normalize(w) == Ok(w)
  {
    hide Split, Join, FormParts, ValidUtf8;
    NormalForm(raw, w);
    OutputChecked(raw, w);
    if '%' in w {
      if Unescape(w).Some? { PercentIsEscape(w); }
    } else {
      PlainText(w);
      NormalText(raw, w);
      var d := Unescape(raw).value;
      assert forall p :: p in Split(w, '/') ==> !IsTraversal(p);
      NormalText(w, Normalize(w).value);
      assert Normalize(w).value == Form(Kept(Split(w, '/')), HasSuffix(w, "/"));
    }
  }

  // A percent sign can survive: `/%25` gives `/%`, which is then rejected.
  lemma SecondPassCanFail()
    ensures Normalize("/%25") == Ok("/%") && Normalize("/%") == Err(InvalidEscape)
  {
    var raw := "/%25";
    assert raw[1..] == "%25" && raw[1..][3..] == "";
    assert EscapeAt(raw[1..], 0) == Some('%');
    assert Unescape("") == Some("") && ['%'] + "" == "%";
    assert Unescape(raw[1..]) == Some("%");
    assert ['/'] + "%" == "/%";
    assert Unescape(raw) == Some("/%");
    assert !ScansSeparator(raw);
    var d := "/%";
    assert d[1..] == "%" && d[1..][1..] == "";
    assert ValidUtf8(d[1..]) && ValidUtf8(d);
    assert Split(d[1..], '/') == ["%"] && Split(d, '/') == ["", "%"];
    assert Unescape(d[1..]).None?;
    assert !HasEscape(d);
    EliminateKeeps(["", "%"], []);
    assert ["", "%"][1..] == ["%"] && ["%"][1..] == [];
    assert Kept(["", "%"]) == ["%"];
  }
}
