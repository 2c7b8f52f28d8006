/**
  Redaction of audit metadata: fields with a sensitive name are removed at every depth, and nothing
  else is.
 */
module Redaction {
  import opened Common
  import opened NameLists
  import opened MetaJson

  // ----- sensitive names

  /** Lower case as far as ASCII results are concerned: two letters outside ASCII have one. */
  function Lower(c: char): char {
    if 'A' <= c <= 'Z' then (c as int + 32) as char
    else if c as int == 0x130 then 'i' else if c as int == 0x212A then 'k' else c
  }

  function LowerAll(s: string): string {
    seq(|s|, i requires 0 <= i < |s| => Lower(s[i]))
  }

  predicate Contains(s: string, t: string) {
    t <= s || (s != [] && Contains(s[1..], t))
  }

  predicate SensitiveWord(key: string) {
    && !("precheck" <= key)
    && (|| key == "pass" || "pass_" <= key || HasSuffix(key, "_pass")
        || Contains(key, "password") || Contains(key, "secret")
        || (Contains(key, "token") && key != "personal_token_id")
        || key == "api_key" || key == "access_key" || key == "secret_key" || key == "private_key"
        || key == "ssh_key" || key == "key" || "key_" <= key || HasSuffix(key, "_key") || HasSuffix(key, "_secret"))
  }

  predicate Sensitive(name: string) {
    SensitiveWord(LowerAll(TrimSpace(name)))
  }

  ghost predicate OccursAt(s: string, t: string, i: int) {
    0 <= i && i + |t| <= |s| && s[i..i + |t|] == t
  }

  ghost predicate Occurs(s: string, t: string) {
    exists i :: OccursAt(s, t, i)
  }

  lemma OccursLater(s: string, t: string)
    requires s != []
    ensures Occurs(s, t) <==> OccursAt(s, t, 0) || Occurs(s[1..], t)
  {
    if Occurs(s[1..], t) {
      var i :| OccursAt(s[1..], t, i);
      assert s[1..][i..i + |t|] == s[i + 1..i + 1 + |t|];
      assert OccursAt(s, t, i + 1);
    }
    if Occurs(s, t) && !OccursAt(s, t, 0) {
      var i :| OccursAt(s, t, i);
      assert s[1..][i - 1..i - 1 + |t|] == s[i..i + |t|];
      assert OccursAt(s[1..], t, i - 1);
    }
  }

  lemma {:induction false} ContainsMeans(s: string, t: string)
    ensures Contains(s, t) <==> Occurs(s, t)
  {
    assert t <= s <==> OccursAt(s, t, 0);
    if s != [] {
      OccursLater(s, t);
      ContainsMeans(s[1..], t);
      hide Occurs, OccursAt;
    }
  }

  /** Which lower-case names are sensitive: those that hold a password, secret or token anywhere, and
      those whose first or last word is a pass or a key, unless they are about prechecks. */
  lemma SensitiveExactlyWhen(key: string)
    ensures SensitiveWord(key) <==>
              && !("precheck" <= key)
              && (|| Occurs(key, "password") || Occurs(key, "secret") || (Occurs(key, "token") && key != "personal_token_id")
                  || key == "pass" || "pass_" <= key || HasSuffix(key, "_pass")
                  || key == "key" || "key_" <= key || HasSuffix(key, "_key"))
  {
    ContainsMeans(key, "password");
    ContainsMeans(key, "secret");
    ContainsMeans(key, "token");
    NamedKeys();
    if HasSuffix(key, "_secret") {
      SuffixOccurs(key, "_secret");
      assert "_secret"[1..] == "secret";
    }
    hide Contains, HasSuffix, Occurs;
  }

  lemma NamedKeys()
    ensures HasSuffix("api_key", "_key") && HasSuffix("access_key", "_key") && HasSuffix("secret_key", "_key")
    ensures HasSuffix("private_key", "_key") && HasSuffix("ssh_key", "_key")
  {
  }

  /** What ends in a word holds the rest of it, too. */
  lemma SuffixOccurs(s: string, t: string)
    requires HasSuffix(s, t) && t != []
    ensures Occurs(s, t[1..])
  {
    assert s[|s| - |t|..][1..] == s[|s| - |t| + 1..|s|];
    assert OccursAt(s, t[1..], |s| - |t| + 1);
  }

  /** The case of a name makes no difference. */
  lemma SameLowerSameClass(a: string, b: string)
    requires LowerAll(a) == LowerAll(b)
    ensures Sensitive(a) == Sensitive(b)
  {
    hide SensitiveWord;
    LowerTrimLeft(a);
    LowerTrimLeft(b);
    LowerTrimRight(TrimLeft(a));
    LowerTrimRight(TrimLeft(b));
  }

  lemma LowerKeepsSpace(c: char)
    ensures SpaceRune(Lower(c)) == SpaceRune(c)
  {
  }

  lemma {:induction false} LowerTrimLeft(s: string)
    ensures LowerAll(TrimLeft(s)) == TrimLeft(LowerAll(s))
  {
    if s != [] {
      LowerKeepsSpace(s[0]);
      LowerTrimLeft(s[1..]);
      assert LowerAll(s)[1..] == LowerAll(s[1..]);
    }
  }

  lemma {:induction false} LowerTrimRight(s: string)
    ensures LowerAll(TrimRight(s)) == TrimRight(LowerAll(s))
  {
    if s != [] {
      var init := s[..|s| - 1];
      LowerKeepsSpace(s[|s| - 1]);
      LowerTrimRight(init);
      assert LowerAll(s)[..|s| - 1] == LowerAll(init);
    }
  }

  predicate AllSpace(s: string) {
    forall i :: 0 <= i < |s| ==> SpaceRune(s[i])
  }

  lemma {:induction false} TrimLeftPast(pad: string, s: string)
    requires AllSpace(pad)
    ensures TrimLeft(pad + s) == TrimLeft(s)
  {
    if pad == [] {
      assert pad + s == s;
    } else {
      assert (pad + s)[1..] == pad[1..] + s;
      TrimLeftPast(pad[1..], s);
    }
  }

  lemma {:induction false} TrimRightPast(s: string, pad: string)
    requires AllSpace(pad)
    ensures TrimRight(s + pad) == TrimRight(s)
  {
    if pad == [] {
      assert s + pad == s;
    } else {
      assert (s + pad)[..|s + pad| - 1] == s + pad[..|pad| - 1];
      TrimRightPast(s, pad[..|pad| - 1]);
    }
  }

  /** What follows the first visible character is not trimmed on the left. */
  lemma {:induction false} TrimLeftBefore(s: string, pad: string)
    requires AllSpace(pad)
    ensures TrimLeft(s + pad) == if TrimLeft(s) == [] then [] else TrimLeft(s) + pad
  {
    if s == [] {
      assert s + pad == pad + [];
      TrimLeftPast(pad, []);
    } else if SpaceRune(s[0]) {
      assert (s + pad)[1..] == s[1..] + pad;
      TrimLeftBefore(s[1..], pad);
    }
  }

  /** Neither does white space around it. */
  lemma PaddingIsIgnored(before: string, name: string, after: string)
    requires AllSpace(before) && AllSpace(after)
    ensures Sensitive(before + name + after) == Sensitive(name)
  {
    hide SensitiveWord, LowerAll;
    assert before + name + after == before + (name + after);
    TrimLeftPast(before, name + after);
    TrimLeftBefore(name, after);
    TrimRightPast(TrimLeft(name), after);
  }

  // ----- redaction

  function RedactFields(fields: seq<Field>): seq<Field>
    decreases fields, 1
  {
    if fields == [] then []
    else if Sensitive(fields[0].name) then RedactFields(fields[1..])
    else [Field(fields[0].name, Redact(fields[0].value))] + RedactFields(fields[1..])
  }

  function RedactItems(items: seq<Meta>): seq<Meta>
    decreases items, 1
  {
    if items == [] then [] else [Redact(items[0])] + RedactItems(items[1..])
  }

  function Redact(m: Meta): Meta
    decreases m, 0
  {
    match m
    case Record(fields) => Record(RedactFields(fields))
    case List(items) => List(RedactItems(items))
    case _ => m
  }

  /** A place in a value: field names and list positions from the top. */
  datatype Step = Into(name: string) | At(index: nat)

  function Child(m: Meta, step: Step): Option<Meta> {
    match step
    case Into(name) => if m.Record? then Lookup(m.fields, name) else None
    case At(index) => if m.List? && index < |m.items| then Some(m.items[index]) else None
  }

  function Find(m: Meta, path: seq<Step>): Option<Meta>
    decreases |path|
  {
    if path == [] then Some(m)
    else
      var child := Child(m, path[0]);
      if child.None? then None else Find(child.value, path[1..])
  }

  predicate Public(step: Step) {
    step.Into? ==> !Sensitive(step.name)
  }

  predicate AllPublic(path: seq<Step>) {
    forall i :: 0 <= i < |path| ==> Public(path[i])
  }

  lemma {:induction false} RedactedLookup(fields: seq<Field>, name: string)
    ensures Lookup(RedactFields(fields), name) ==
            if Sensitive(name) || Lookup(fields, name).None? then None else Some(Redact(Lookup(fields, name).value))
  {
    hide Sensitive;
    if fields != [] {
      RedactedLookup(fields[1..], name);
    }
  }

  lemma {:induction false} RedactedItem(items: seq<Meta>, i: nat)
    ensures |RedactItems(items)| == |items| && (i < |items| ==> RedactItems(items)[i] == Redact(items[i]))
  {
    if items != [] {
      RedactedItem(items[1..], if i > 0 then i - 1 else 0);
    }
  }

  lemma RedactedChild(m: Meta, step: Step)
    ensures Child(Redact(m), step) ==
            if Public(step) && Child(m, step).Some? then Some(Redact(Child(m, step).value)) else None
  {
    hide Sensitive;
    match m
    case Record(fields) =>
      if step.Into? {
        RedactedLookup(fields, step.name);
      }
    case List(items) =>
      if step.At? {
        RedactedItem(items, step.index);
      }
    case _ =>
  }

  /** Redaction removes exactly what lies under a sensitive name, at any depth, and nothing else. */
  lemma {:induction false} RedactionIsExact(m: Meta, path: seq<Step>)
    ensures Find(Redact(m), path) ==
            if AllPublic(path) && Find(m, path).Some? then Some(Redact(Find(m, path).value)) else None
    decreases |path|
  {
    hide Redact, Public, Child;
    if path != [] {
      RedactedChild(m, path[0]);
      if Child(m, path[0]).Some? {
        RedactionIsExact(Child(m, path[0]).value, path[1..]);
      }
      assert AllPublic(path) <==> Public(path[0]) && AllPublic(path[1..]) by {
        assert path == [path[0]] + path[1..];
      }
    }
  }

  // ----- values without sensitive names

  predicate Clean(m: Meta)
    decreases m, 0
  {
    match m
    case Record(fields) => CleanFields(fields)
    case List(items) => CleanItems(items)
    case _ => true
  }

  predicate CleanFields(fields: seq<Field>)
    decreases fields, 1
  {
    fields == [] || (!Sensitive(fields[0].name) && Clean(fields[0].value) && CleanFields(fields[1..]))
  }

  predicate CleanItems(items: seq<Meta>)
    decreases items, 1
  {
    items == [] || (Clean(items[0]) && CleanItems(items[1..]))
  }

  lemma {:induction false} RedactedIsClean(m: Meta)
    ensures Clean(Redact(m))
    decreases m, 0
  {
    hide Sensitive;
    match m
    case Record(fields) => RedactedFieldsAreClean(fields);
    case List(items) => RedactedItemsAreClean(items);
    case _ =>
  }

  lemma {:induction false} RedactedFieldsAreClean(fields: seq<Field>)
    ensures CleanFields(RedactFields(fields))
    decreases fields, 1
  {
    hide Sensitive;
    if fields != [] {
      RedactedIsClean(fields[0].value);
      RedactedFieldsAreClean(fields[1..]);
    }
  }

  lemma {:induction false} RedactedItemsAreClean(items: seq<Meta>)
    ensures CleanItems(RedactItems(items))
    decreases items, 1
  {
    if items != [] {
      RedactedIsClean(items[0]);
      RedactedItemsAreClean(items[1..]);
    }
  }

  /** What `Clean` means: no path through the value uses a sensitive name. */
  lemma {:induction false} CleanMeans(m: Meta, path: seq<Step>)
    requires Clean(m) && Find(m, path).Some?
    ensures AllPublic(path) && Clean(Find(m, path).value)
    decreases |path|
  {
    hide Sensitive;
    if path != [] {
      match path[0] {
        case Into(name) => CleanLookup(m.fields, name);
        case At(index) => CleanItem(m.items, index);
      }
      CleanMeans(Child(m, path[0]).value, path[1..]);
      assert path == [path[0]] + path[1..];
    }
  }

  lemma {:induction false} CleanLookup(fields: seq<Field>, name: string)
    requires CleanFields(fields) && Lookup(fields, name).Some?
    ensures !Sensitive(name) && Clean(Lookup(fields, name).value)
  {
    hide Sensitive;
    if fields[0].name != name {
      CleanLookup(fields[1..], name);
    }
  }

  lemma {:induction false} CleanItem(items: seq<Meta>, i: nat)
    requires CleanItems(items) && i < |items|
    ensures Clean(items[i])
  {
    if i > 0 {
      CleanItem(items[1..], i - 1);
    }
  }

  lemma {:induction false} CleanPut(fields: seq<Field>, name: string, value: Meta)
    requires CleanFields(fields) && !Sensitive(name) && Clean(value)
    ensures CleanFields(Put(fields, name, value))
  {
    hide Sensitive, Before;
    if fields != [] && !Before(name, fields[0].name) && fields[0].name != name {
      CleanPut(fields[1..], name, value);
    }
  }
}
