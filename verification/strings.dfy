/** The functions of Go's strings package that the registry, its clients and the SQL builder use on their lists. */
module Strings {

  const COMMA := ','

  /** strings.Join(list, sep), and the same for lists of tokens. */
  function Join<T>(list: seq<seq<T>>, sep: seq<T>): seq<T> {
    if list == [] then []
    else if |list| == 1 then list[0]
    else list[0] + sep + Join(list[1..], sep)
  }

  /** Where the first comma is, or the length. */
  function FirstComma(s: string): (i: nat)
    ensures i <= |s| && COMMA !in s[..i] && (i < |s| ==> s[i] == COMMA)
  {
    if s == [] || s[0] == COMMA then 0 else 1 + FirstComma(s[1..])
  }

  /** strings.Split(s, ",") */
  function Split(s: string): (parts: seq<string>)
    ensures parts != []
    decreases |s|
  {
    var i := FirstComma(s);
    if i == |s| then [s] else [s[..i]] + Split(s[i + 1..])
  }

  /** unicode.IsSpace, for Latin-1. */
  predicate IsSpace(c: char) {
    c in {'\t', '\n', '\U{0B}', '\U{0C}', '\r', ' ', '\U{85}', '\U{A0}'}
  }

  /** Their codes: tab, line feed, vertical tab, form feed and carriage return, space, next line and no-break space. */
  lemma SpaceCodes(c: char)
    ensures IsSpace(c) <==> 9 <= c as int <= 13 || c as int in {32, 0x85, 0xA0}
  {
  }

  /** strings.TrimSpace */
  function TrimSpace(s: string): string
    decreases |s|
  {
    if s == [] then []
    else if IsSpace(s[0]) then TrimSpace(s[1..])
    else if IsSpace(s[|s| - 1]) then TrimSpace(s[..|s| - 1])
    else s
  }

  /** What Refresh makes of the registry's header: the parts that are not blank, without surrounding blanks. */
  function Parse(header: string): seq<string> { NotBlank(Split(header)) }

  function NotBlank(parts: seq<string>): seq<string> {
    if parts == [] then []
    else (if TrimSpace(parts[0]) == "" then [] else [TrimSpace(parts[0])]) + NotBlank(parts[1..])
  }

  /** An address that survives the trip: not empty, no comma, no blank at either end. */
  predicate Sendable(addr: string) { addr != "" && COMMA !in addr && !IsSpace(addr[0]) && !IsSpace(addr[|addr| - 1]) }

  lemma {:induction false} FirstCommaAfter(a: string, rest: string)
    requires COMMA !in a && (rest == "" || rest[0] == COMMA)
    ensures FirstComma(a + rest) == |a|
  {
    if a == "" {
      assert a + rest == rest;
    } else {
      assert COMMA !in a[1..] && (a + rest)[1..] == a[1..] + rest;
      FirstCommaAfter(a[1..], rest);
    }
  }

  lemma {:induction false} SplitOfJoin(list: seq<string>)
    requires list != [] && forall i :: 0 <= i < |list| ==> COMMA !in list[i]
    ensures Split(Join(list, [COMMA])) == list
  {
    var s := Join(list, [COMMA]);
    if |list| == 1 {
      FirstCommaAfter(s, "");
      assert s + "" == s;
    } else {
      var n := |list[0]|;
      assert s == list[0] + ([COMMA] + Join(list[1..], [COMMA]));
      FirstCommaAfter(list[0], [COMMA] + Join(list[1..], [COMMA]));
      assert s[..n] == list[0] && s[n + 1..] == Join(list[1..], [COMMA]);
      SplitOfJoin(list[1..]);
    }
  }

  lemma {:induction false} NotBlankOfSendable(parts: seq<string>)
    requires forall i :: 0 <= i < |parts| ==> Sendable(parts[i])
    ensures NotBlank(parts) == parts
  {
    if parts != [] {
      NotBlankOfSendable(parts[1..]);
      assert TrimSpace(parts[0]) == parts[0];
    }
  }

  lemma {:induction false} TrimIsTrimmed(s: string)
    ensures TrimSpace(s) == "" || (!IsSpace(TrimSpace(s)[0]) && !IsSpace(TrimSpace(s)[|TrimSpace(s)| - 1]))
    ensures COMMA !in s ==> COMMA !in TrimSpace(s)
    decreases |s|
  {
    if s != [] {
      if IsSpace(s[0]) { TrimIsTrimmed(s[1..]); }
      else if IsSpace(s[|s| - 1]) { TrimIsTrimmed(s[..|s| - 1]); }
    }
  }

  lemma {:induction false} SplitHasNoComma(s: string, i: nat)
    requires i < |Split(s)|
    ensures COMMA !in Split(s)[i]
    decreases |s|
  {
    var n := FirstComma(s);
    if n < |s| && i > 0 {
      SplitHasNoComma(s[n + 1..], i - 1);
    }
  }

  lemma {:induction false} NotBlankIsSendable(parts: seq<string>, i: nat)
    requires (forall k :: 0 <= k < |parts| ==> COMMA !in parts[k]) && i < |NotBlank(parts)|
    ensures Sendable(NotBlank(parts)[i])
  {
    TrimIsTrimmed(parts[0]);
    if TrimSpace(parts[0]) == "" {
      NotBlankIsSendable(parts[1..], i);
    } else if i > 0 {
      NotBlankIsSendable(parts[1..], i - 1);
    }
  }

  predicate AllSpace(s: string) { forall c :: c in s ==> IsSpace(c) }

  /** What begins and ends with no blank comes back however many blanks are put around it. */
  lemma {:induction false} TrimTakesBlanksAway(before: string, s: string, after: string)
    requires AllSpace(before) && AllSpace(after)
    requires s == "" || (!IsSpace(s[0]) && !IsSpace(s[|s| - 1]))
    ensures TrimSpace(before + s + after) == s
    decreases |before| + |after|
  {
    var all := before + s + after;
    if before != "" {
      assert before[0] in before && all[1..] == before[1..] + s + after;
      TrimTakesBlanksAway(before[1..], s, after);
    } else if after != "" {
      var n := |after| - 1;
      assert after[n] in after && all == s + after;
      assert s + after[..n] == all[..|all| - 1] && "" + s + after[..n] == s + after[..n];
      if s == "" {
        assert all == after && after[0] in after;
        TrimTakesBlanksAway("", "", after[1..]);
        assert "" + "" + after[1..] == after[1..];
      } else {
        TrimTakesBlanksAway("", s, after[..n]);
      }
    } else {
      assert all == s;
    }
  }

  /** `part` is the address with blanks around it. */
  ghost predicate Padded(part: string, addr: string) {
    exists before, after :: AllSpace(before) && AllSpace(after) && part == before + addr + after
  }

  lemma {:induction false} NotBlankOfPadded(parts: seq<string>, list: seq<string>)
    requires |parts| == |list| && forall i :: 0 <= i < |list| ==> Sendable(list[i]) && Padded(parts[i], list[i])
    ensures NotBlank(parts) == list
  {
    if parts != [] {
      var before, after :| AllSpace(before) && AllSpace(after) && parts[0] == before + list[0] + after;
      TrimTakesBlanksAway(before, list[0], after);
      NotBlankOfPadded(parts[1..], list[1..]);
      assert list == [list[0]] + list[1..];
    }
  }

  /** A part of blanks only is no address. */
  lemma {:induction false} BlankPartVanishes(before: seq<string>, blank: string, after: seq<string>)
    requires AllSpace(blank)
    ensures NotBlank(before + [blank] + after) == NotBlank(before + after)
  {
    if before == [] {
      TrimTakesBlanksAway(blank, "", "");
      assert blank + "" + "" == blank && ([blank] + after)[1..] == after;
      assert before + [blank] + after == [blank] + after && before + after == after;
    } else {
      BlankPartVanishes(before[1..], blank, after);
      assert (before + [blank] + after)[1..] == before[1..] + [blank] + after;
      assert (before + after)[1..] == before[1..] + after;
    }
  }

  /** Addresses arrive as they are also if the header has blanks around them. */
  lemma PaddedListArrives(parts: seq<string>, list: seq<string>)
    requires |parts| == |list| && forall i :: 0 <= i < |list| ==> Sendable(list[i]) && Padded(parts[i], list[i])
    ensures Parse(Join(parts, [COMMA])) == list
  {
    NotBlankOfPadded(parts, list);
    if list == [] {
      assert Split("") == [""];
      assert NotBlank([""]) == [];
    } else {
      forall i | 0 <= i < |parts| ensures COMMA !in parts[i] { PaddedHasNoComma(parts[i], list[i]); }
      SplitOfJoin(parts);
    }
  }

  lemma PaddedHasNoComma(part: string, addr: string)
    requires Padded(part, addr) && COMMA !in addr
    ensures COMMA !in part
  {
    var before, after :| AllSpace(before) && AllSpace(after) && part == before + addr + after;
    assert !IsSpace(COMMA);
  }

  /** A list of addresses arrives as it was sent, the empty list included, exactly when every address is sendable. */
  lemma TransportIff(list: seq<string>)
    ensures Parse(Join(list, [COMMA])) == list <==> forall i :: 0 <= i < |list| ==> Sendable(list[i])
  {
    var header := Join(list, [COMMA]);
    if forall i :: 0 <= i < |list| ==> Sendable(list[i]) {
      if list == [] {
        assert Split("") == [""];
        assert NotBlank([""]) == [];
      } else {
        SplitOfJoin(list);
        NotBlankOfSendable(list);
      }
    } else {
      var i :| 0 <= i < |list| && !Sendable(list[i]);
      forall k | 0 <= k < |Split(header)| ensures COMMA !in Split(header)[k] { SplitHasNoComma(header, k); }
      if i < |Parse(header)| { NotBlankIsSendable(Split(header), i); }
    }
  }
}
