/** Redaction of request arguments for the daemon log. */
module Redaction {
  import opened Basics
  import opened Text

  /** A decoded JSON value; Other stands for null, booleans and numbers. */
  datatype Json = Str(s: string) | Arr(items: seq<Json>) | Obj(fields: map<string, Json>) | Other(literal: string)

  /** The two sensitivity tests: of a key or variable name, and of a text. */
  datatype Tests = Tests(key: string -> bool, text: string -> bool)

  const REDACTED := "<redacted>"

  predicate EnvLike(v: Json) {
    v.Str? && IndexOf(v.s, '=') < |v.s|
  }

  predicate LooksLikeEnvList(items: seq<Json>) {
    |items| > 0 && forall i :: 0 <= i < |items| ==> EnvLike(items[i])
  }

  /** An entry NAME=value of an environment list. */
  function ScrubEnvEntry(t: Tests, v: Json): Json {
    if !v.Str? then v
    else
      var k := IndexOf(v.s, '=');
      if k == 0 || k == |v.s| then v
      else if t.key(v.s[..k]) || t.text(v.s) then Str(v.s[..k] + "=" + REDACTED)
      else v
  }

  function ScrubEnv(t: Tests, items: seq<Json>): seq<Json> {
    seq(|items|, i requires 0 <= i < |items| => ScrubEnvEntry(t, items[i]))
  }

  /** A whole argument value; a text at the top is left as it is. */
  function Scrub(t: Tests, v: Json): Json
    decreases v, 0
  {
    match v
    case Obj(fields) => Obj(map k | k in fields :: ScrubField(t, k, fields[k]))
    case Arr(items) => Arr(seq(|items|, i requires 0 <= i < |items| => ScrubValue(t, items[i])))
    case _ => v
  }

  function ScrubField(t: Tests, k: string, v: Json): Json
    decreases v, 2
  {
    if v.Arr? && LooksLikeEnvList(v.items) then Arr(ScrubEnv(t, v.items))
    else if t.key(k) then Str(REDACTED)
    else ScrubValue(t, v)
  }

  /** A value below the top. */
  function ScrubValue(t: Tests, v: Json): Json
    decreases v, 1
  {
    match v
    case Arr(items) => if LooksLikeEnvList(items) then Arr(ScrubEnv(t, items)) else Scrub(t, v)
    case Obj(_) => Scrub(t, v)
    case Str(s) => if t.text(s) then Str(REDACTED) else v
    case Other(_) => v
  }

  // ----- environment lists stay what they are -----

  lemma NoEqualsInRedacted()
    ensures IndexOf(REDACTED, '=') == |REDACTED|
  {
    assert forall i :: 0 <= i < |REDACTED| ==> REDACTED[i] != '=';
  }

  lemma EnvEntrySettled(t: Tests, v: Json)
    ensures EnvLike(ScrubEnvEntry(t, v)) <==> EnvLike(v)
    ensures ScrubEnvEntry(t, ScrubEnvEntry(t, v)) == ScrubEnvEntry(t, v)
  {
    if v.Str? && ScrubEnvEntry(t, v) != v {
      var k := IndexOf(v.s, '=');
      var s := v.s[..k] + "=" + REDACTED;
      IndexOfUnique(s, '=', k);
      assert s[..k] == v.s[..k];
    }
  }

  lemma EnvSettled(t: Tests, items: seq<Json>)
    ensures LooksLikeEnvList(ScrubEnv(t, items)) <==> LooksLikeEnvList(items)
    ensures ScrubEnv(t, ScrubEnv(t, items)) == ScrubEnv(t, items)
  {
    forall i | 0 <= i < |items|
      ensures EnvLike(ScrubEnv(t, items)[i]) <==> EnvLike(items[i])
      ensures ScrubEnv(t, ScrubEnv(t, items))[i] == ScrubEnv(t, items)[i]
    {
      EnvEntrySettled(t, items[i]);
    }
    if LooksLikeEnvList(ScrubEnv(t, items)) {
      forall i | 0 <= i < |items| ensures EnvLike(items[i]) {
        assert EnvLike(ScrubEnv(t, items)[i]);
      }
    }
  }

  /** A list that is not environment-like never becomes so. */
  lemma NeverBecomesEnv(t: Tests, items: seq<Json>)
    requires !LooksLikeEnvList(items)
    ensures !LooksLikeEnvList(Scrub(t, Arr(items)).items)
  {
    if items != [] {
      var i :| 0 <= i < |items| && !EnvLike(items[i]);
      NeverBecomesEnvLike(t, items[i]);
      var r := Scrub(t, Arr(items)).items;
      assert r[i] == ScrubValue(t, items[i]);
    }
  }

  lemma NeverBecomesEnvLike(t: Tests, v: Json)
    requires !EnvLike(v)
    ensures !EnvLike(ScrubValue(t, v))
  {
    NoEqualsInRedacted();
  }

  // ----- redaction is idempotent -----

  lemma {:induction false} FieldSettled(t: Tests, k: string, v: Json)
    ensures ScrubField(t, k, ScrubField(t, k, v)) == ScrubField(t, k, v)
    decreases v, 2
  {
    if v.Arr? && LooksLikeEnvList(v.items) {
      EnvSettled(t, v.items);
    } else if !t.key(k) {
      ValueSettled(t, v);
      if v.Arr? {
        NeverBecomesEnv(t, v.items);
      }
    }
  }

  lemma {:induction false} ValueSettled(t: Tests, v: Json)
    ensures ScrubValue(t, ScrubValue(t, v)) == ScrubValue(t, v)
    decreases v, 1
  {
    match v
    case Arr(items) =>
      if LooksLikeEnvList(items) {
        EnvSettled(t, items);
      } else {
        NeverBecomesEnv(t, items);
        RedactionIsIdempotent(t, v);
      }
    case Obj(_) => RedactionIsIdempotent(t, v);
    case _ =>
  }

  /** Redacting a redacted value changes nothing, whatever the sensitivity tests are. */
  lemma {:induction false} RedactionIsIdempotent(t: Tests, v: Json)
    ensures Scrub(t, Scrub(t, v)) == Scrub(t, v)
    decreases v, 0
  {
    match v
    case Obj(fields) =>
      var once := Scrub(t, v).fields;
      forall k | k in fields ensures ScrubField(t, k, once[k]) == once[k] {
        FieldSettled(t, k, fields[k]);
      }
      assert Scrub(t, Obj(once)).fields == once;
    case Arr(items) =>
      var once := Scrub(t, v).items;
      forall i | 0 <= i < |items| ensures ScrubValue(t, once[i]) == once[i] {
        ValueSettled(t, items[i]);
      }
      assert Scrub(t, Arr(once)).items == once;
    case _ =>
  }

  // ----- the shape is kept -----

  /** The same keys and lengths throughout, except where a whole value was replaced by the mark. */
  predicate Shaped(v: Json, r: Json)
    decreases v
  {
    || r == Str(REDACTED)
    || match v
       case Obj(fields) => r.Obj? && r.fields.Keys == fields.Keys && forall k :: k in fields ==> Shaped(fields[k], r.fields[k])
       case Arr(items) => r.Arr? && |r.items| == |items| && forall i :: 0 <= i < |items| ==> Shaped(items[i], r.items[i])
       case Str(_) => r.Str?
       case Other(_) => r == v
  }

  lemma ShapedEnv(t: Tests, items: seq<Json>)
    ensures Shaped(Arr(items), Arr(ScrubEnv(t, items)))
  {
    forall i | 0 <= i < |items| ensures Shaped(items[i], ScrubEnv(t, items)[i]) {
      ShapedSelf(items[i]);
    }
  }

  lemma {:induction false} ShapedSelf(v: Json)
    ensures Shaped(v, v)
    decreases v
  {
    match v
    case Obj(fields) =>
      forall k | k in fields ensures Shaped(fields[k], fields[k]) {
        ShapedSelf(fields[k]);
      }
    case Arr(items) =>
      forall i | 0 <= i < |items| ensures Shaped(items[i], items[i]) {
        ShapedSelf(items[i]);
      }
    case _ =>
  }

  lemma {:induction false} ShapedValue(t: Tests, v: Json)
    ensures Shaped(v, ScrubValue(t, v))
    decreases v, 1
  {
    if v.Arr? && LooksLikeEnvList(v.items) {
      ShapedEnv(t, v.items);
    } else {
      ShapeIsKept(t, v);
    }
  }

  /** Redaction keeps key sets and list lengths; the top itself is never replaced. */
  lemma {:induction false} ShapeIsKept(t: Tests, v: Json)
    ensures Shaped(v, Scrub(t, v))
    ensures v.Obj? ==> Scrub(t, v).Obj? && Scrub(t, v).fields.Keys == v.fields.Keys
    ensures v.Arr? ==> Scrub(t, v).Arr? && |Scrub(t, v).items| == |v.items|
    decreases v, 0
  {
    match v
    case Obj(fields) =>
      forall k | k in fields ensures Shaped(fields[k], Scrub(t, v).fields[k]) {
        if fields[k].Arr? && LooksLikeEnvList(fields[k].items) {
          ShapedEnv(t, fields[k].items);
        } else {
          ShapedValue(t, fields[k]);
        }
      }
    case Arr(items) =>
      forall i | 0 <= i < |items| ensures Shaped(items[i], Scrub(t, v).items[i]) {
        ShapedValue(t, items[i]);
      }
    case _ =>
  }

  // ----- what can be read in a value -----

  /** A place in a value. */
  datatype Turn = Field(k: string) | Item(i: nat)

  type Path = seq<Turn>

  /** A text NAME=value whose value is the mark. */
  predicate Marked(s: string) {
    var k := IndexOf(s, '=');
    k < |s| && s[k + 1..] == REDACTED
  }

  predicate Named(s: string) {
    0 < IndexOf(s, '=') < |s|
  }

  function Name(s: string): string {
    s[..IndexOf(s, '=')]
  }

  /** A text gives something away by itself or by its name, or, unless its value is marked, because its name or the
      field it stands under is sensitive. The mark alone gives nothing away. */
  predicate Sensitive(t: Tests, s: string, under: bool) {
    if s == REDACTED then false
    else if Marked(s) then Named(s) && t.text(Name(s))
    else under || t.text(s) || (Named(s) && (t.text(Name(s)) || t.key(Name(s))))
  }

  /** A text, a literal or a field name that gives something away, and where. */
  datatype Leak = Leak(at: Path, what: string, isName: bool)

  /** Everything in a value that gives something away. Nothing here depends on what redaction does: every text counts,
      wherever it stands, and under a sensitive field everything does. */
  ghost function Leaks(t: Tests, v: Json, under: bool, at: Path): set<Leak>
    decreases v, 0
  {
    match v
    case Str(s) => if Sensitive(t, s, under) then {Leak(at, s, false)} else {}
    case Arr(items) => set i, l | 0 <= i < |items| && l in Leaks(t, items[i], under, at + [Item(i)]) :: l
    case Obj(fields) =>
      (set k | k in fields && Sensitive(t, k, under) :: Leak(at + [Field(k)], k, true)) +
      (set k, l | k in fields && l in FieldLeaks(t, k, fields[k], under, at + [Field(k)]) :: l)
    case Other(literal) => if under then {Leak(at, literal, false)} else {}
  }

  ghost function FieldLeaks(t: Tests, k: string, v: Json, under: bool, at: Path): set<Leak>
    decreases v, 1
  {
    Leaks(t, v, under || t.key(k), at)
  }

  // ----- what redaction passes on -----

  /** Why a text is passed on: it stands at the top, is a field name, has passed the text test, or is an entry of an
      environment list, under an innocent field or in a list, or under a sensitive field. */
  datatype Kind = Top | FieldName | Leaf | Entry | SecretEntry

  datatype Passed = Passed(at: Path, kind: Kind, s: string)

  /** The texts that redaction reaches and does not replace as a whole. */
  ghost function PassedOn(t: Tests, v: Json, at: Path): set<Passed>
    decreases v, 0
  {
    match v
    case Str(s) => {Passed(at, Top, s)}
    case Arr(items) => set i, p | 0 <= i < |items| && p in PassedInValue(t, items[i], at + [Item(i)]) :: p
    case Obj(fields) =>
      (set k | k in fields :: Passed(at + [Field(k)], FieldName, k)) +
      (set k, p | k in fields && p in PassedInField(t, k, fields[k], at + [Field(k)]) :: p)
    case Other(_) => {}
  }

  ghost function PassedInField(t: Tests, k: string, v: Json, at: Path): set<Passed>
    decreases v, 2
  {
    if v.Arr? && LooksLikeEnvList(v.items) then PassedInEnv(v.items, t.key(k), at)
    else if t.key(k) then {}
    else PassedInValue(t, v, at)
  }

  ghost function PassedInValue(t: Tests, v: Json, at: Path): set<Passed>
    decreases v, 1
  {
    match v
    case Arr(items) => if LooksLikeEnvList(items) then PassedInEnv(items, false, at) else PassedOn(t, v, at)
    case Obj(_) => PassedOn(t, v, at)
    case Str(s) => if t.text(s) then {} else {Passed(at, Leaf, s)}
    case Other(_) => {}
  }

  ghost function PassedInEnv(items: seq<Json>, under: bool, at: Path): set<Passed> {
    set i | 0 <= i < |items| && items[i].Str? ::
      Passed(at + [Item(i)], if under then SecretEntry else Entry, items[i].s)
  }

  /** Nothing is given away by passing the text on. A field name or a text at the top must be innocent; a text that has
      passed the text test may still have a name that is not; an entry must have an innocent name or none, and without a
      name an innocent text or no value; under a sensitive field its value must be marked, or there must be a reason to mark it. */
  predicate Harmless(t: Tests, p: Passed) {
    var s := p.s;
    match p.kind
    case Top => !Sensitive(t, s, false)
    case FieldName => !Sensitive(t, s, false)
    case Leaf => Named(s) ==> !t.text(Name(s)) && (t.key(Name(s)) ==> Marked(s))
    case Entry => if Named(s) then !t.text(Name(s)) else Marked(s) || !t.text(s)
    case SecretEntry => if Named(s) then !t.text(Name(s)) && (Marked(s) || t.key(Name(s)) || t.text(s)) else Marked(s)
  }

  /** What the log shows of a passed-on text. */
  function Shown(t: Tests, p: Passed): string {
    if p.kind.Entry? || p.kind.SecretEntry? then ScrubbedEntry(t, p.s) else p.s
  }

  function ScrubbedEntry(t: Tests, s: string): string {
    if Named(s) && (t.key(Name(s)) || t.text(s)) then Name(s) + "=" + REDACTED else s
  }

  /** What is given away by passing the texts on. */
  ghost function Given(t: Tests, ps: set<Passed>): set<Leak> {
    set p | p in ps && !Harmless(t, p) :: Leak(p.at, Shown(t, p), p.kind.FieldName?)
  }

  // ----- redaction gives away exactly that -----

  lemma EntryShown(t: Tests, s: string)
    requires EnvLike(Str(s))
    ensures ScrubEnvEntry(t, Str(s)) == Str(ScrubbedEntry(t, s))
  {
  }

  lemma MarkedEntry(name: string)
    requires name != "" && '=' !in name
    ensures var s := name + "=" + REDACTED; Named(s) && Name(s) == name && Marked(s) && s != REDACTED
  {
    var s := name + "=" + REDACTED;
    IndexOfUnique(s, '=', |name|);
    assert s[..|name|] == name && s[|name| + 1..] == REDACTED;
  }

  lemma NamedName(s: string)
    requires Named(s)
    ensures Name(s) != "" && '=' !in Name(s)
  {
  }

  lemma EnvLikeIsNotTheMark(s: string)
    requires EnvLike(Str(s))
    ensures s != REDACTED
  {
    NoEqualsInRedacted();
  }

  /** An entry of an environment list gives something away exactly when it is not harmless. */
  lemma EntryGiven(t: Tests, s: string, under: bool, at: Path)
    requires EnvLike(Str(s))
    ensures Sensitive(t, ScrubbedEntry(t, s), under) <==> !Harmless(t, Passed(at, if under then SecretEntry else Entry, s))
  {
    EnvLikeIsNotTheMark(s);
    if Named(s) {
      NamedName(s);
      MarkedEntry(Name(s));
    }
  }

  lemma EnvGiven(t: Tests, items: seq<Json>, under: bool, at: Path)
    requires LooksLikeEnvList(items)
    ensures Leaks(t, Arr(ScrubEnv(t, items)), under, at) == Given(t, PassedInEnv(items, under, at))
  {
    var out, ps := ScrubEnv(t, items), PassedInEnv(items, under, at);
    forall i | 0 <= i < |items|
      ensures items[i].Str?
      ensures var p := Passed(at + [Item(i)], if under then SecretEntry else Entry, items[i].s);
              && p in ps
              && Leaks(t, out[i], under, at + [Item(i)]) == if Harmless(t, p) then {} else {Leak(p.at, Shown(t, p), false)}
    {
      assert EnvLike(items[i]);
      EntryShown(t, items[i].s);
      EntryGiven(t, items[i].s, under, at + [Item(i)]);
    }
  }

  lemma LeafGiven(t: Tests, s: string, at: Path)
    requires !t.text(s)
    ensures Sensitive(t, s, false) <==> !Harmless(t, Passed(at, Leaf, s))
  {
    if Named(s) {
      EnvLikeIsNotTheMark(s);
    }
  }

  lemma TextGiven(t: Tests, v: Json, at: Path)
    requires v.Str?
    ensures Leaks(t, ScrubValue(t, v), false, at) == Given(t, PassedInValue(t, v, at))
  {
    if !t.text(v.s) {
      LeafGiven(t, v.s, at);
      assert PassedInValue(t, v, at) == {Passed(at, Leaf, v.s)};
    }
  }

  lemma {:induction false} ValueGiven(t: Tests, v: Json, at: Path)
    ensures Leaks(t, ScrubValue(t, v), false, at) == Given(t, PassedInValue(t, v, at))
    decreases v, 1
  {
    match v
    case Arr(items) =>
      if LooksLikeEnvList(items) {
        EnvGiven(t, items, false, at);
      } else {
        ItemsGiven(t, items, v, at);
      }
    case Obj(fields) => FieldsGiven(t, fields, v, at);
    case Str(_) => TextGiven(t, v, at);
    case Other(_) =>
  }

  lemma {:induction false} FieldGiven(t: Tests, k: string, v: Json, at: Path)
    ensures FieldLeaks(t, k, ScrubField(t, k, v), false, at) == Given(t, PassedInField(t, k, v, at))
    decreases v, 2
  {
    if v.Arr? && LooksLikeEnvList(v.items) {
      EnvGiven(t, v.items, t.key(k), at);
    } else if !t.key(k) {
      ValueGiven(t, v, at);
    }
  }

  lemma {:induction false} ItemsGiven(t: Tests, items: seq<Json>, v: Json, at: Path)
    requires v == Arr(items)
    ensures Leaks(t, Scrub(t, v), false, at) == Given(t, PassedOn(t, v, at))
    decreases v, 0
  {
    var out := Scrub(t, v).items;
    forall i | 0 <= i < |items|
      ensures Leaks(t, out[i], false, at + [Item(i)]) == Given(t, PassedInValue(t, items[i], at + [Item(i)]))
    {
      ValueGiven(t, items[i], at + [Item(i)]);
    }
    forall l | l in Given(t, PassedOn(t, v, at)) ensures l in Leaks(t, Scrub(t, v), false, at) {
      var p :| p in PassedOn(t, v, at) && !Harmless(t, p) && l == Leak(p.at, Shown(t, p), p.kind.FieldName?);
      var i :| 0 <= i < |items| && p in PassedInValue(t, items[i], at + [Item(i)]);
      assert l in Given(t, PassedInValue(t, items[i], at + [Item(i)]));
    }
    forall l | l in Leaks(t, Scrub(t, v), false, at) ensures l in Given(t, PassedOn(t, v, at)) {
      var i :| 0 <= i < |out| && l in Leaks(t, out[i], false, at + [Item(i)]);
      assert l in Given(t, PassedInValue(t, items[i], at + [Item(i)]));
    }
  }

  lemma {:induction false} FieldsGiven(t: Tests, fields: map<string, Json>, v: Json, at: Path)
    requires v == Obj(fields)
    ensures Leaks(t, Scrub(t, v), false, at) == Given(t, PassedOn(t, v, at))
    decreases v, 0
  {
    var out := Scrub(t, v).fields;
    forall k | k in fields
      ensures FieldLeaks(t, k, out[k], false, at + [Field(k)]) == Given(t, PassedInField(t, k, fields[k], at + [Field(k)]))
    {
      FieldGiven(t, k, fields[k], at + [Field(k)]);
    }
    forall l | l in Given(t, PassedOn(t, v, at)) ensures l in Leaks(t, Scrub(t, v), false, at) {
      GivenIsLeaked(t, fields, v, at, l);
    }
    forall l | l in Leaks(t, Scrub(t, v), false, at) ensures l in Given(t, PassedOn(t, v, at)) {
      LeakedIsGiven(t, fields, v, at, l);
    }
  }

  lemma GivenIsLeaked(t: Tests, fields: map<string, Json>, v: Json, at: Path, l: Leak)
    requires v == Obj(fields) && l in Given(t, PassedOn(t, v, at))
    requires forall k :: k in fields ==>
               FieldLeaks(t, k, Scrub(t, v).fields[k], false, at + [Field(k)]) ==
               Given(t, PassedInField(t, k, fields[k], at + [Field(k)]))
    ensures l in Leaks(t, Scrub(t, v), false, at)
  {
    var out := Scrub(t, v).fields;
    var p :| p in PassedOn(t, v, at) && !Harmless(t, p) && l == Leak(p.at, Shown(t, p), p.kind.FieldName?);
    if k :| k in fields && p == Passed(at + [Field(k)], FieldName, k) {
      assert k in out && Sensitive(t, k, false);
    } else {
      var k :| k in fields && p in PassedInField(t, k, fields[k], at + [Field(k)]);
      assert l in Given(t, PassedInField(t, k, fields[k], at + [Field(k)]));
      assert k in out;
    }
  }

  lemma LeakedIsGiven(t: Tests, fields: map<string, Json>, v: Json, at: Path, l: Leak)
    requires v == Obj(fields) && l in Leaks(t, Scrub(t, v), false, at)
    requires forall k :: k in fields ==>
               FieldLeaks(t, k, Scrub(t, v).fields[k], false, at + [Field(k)]) ==
               Given(t, PassedInField(t, k, fields[k], at + [Field(k)]))
    ensures l in Given(t, PassedOn(t, v, at))
  {
    var out := Scrub(t, v).fields;
    if k :| k in out && Sensitive(t, k, false) && l == Leak(at + [Field(k)], k, true) {
      var p := Passed(at + [Field(k)], FieldName, k);
      assert k in fields && p in PassedOn(t, v, at) && !Harmless(t, p);
    } else {
      var k :| k in out && l in FieldLeaks(t, k, out[k], false, at + [Field(k)]);
      assert k in fields && l in Given(t, PassedInField(t, k, fields[k], at + [Field(k)]));
    }
  }

  /** What the redacted value still gives away is exactly what redaction passes on and is not harmless, at the same
      places. */
  lemma RedactionGivesAway(t: Tests, v: Json)
    ensures Leaks(t, Scrub(t, v), false, []) == Given(t, PassedOn(t, v, []))
  {
    match v
    case Obj(fields) => FieldsGiven(t, fields, v, []);
    case Arr(items) => ItemsGiven(t, items, v, []);
    case Str(s) => assert PassedOn(t, v, []) == {Passed([], Top, s)};
    case Other(_) =>
  }

  /** Nothing sensitive is left exactly when everything that redaction passes on is harmless. */
  lemma RedactionIsCleanIff(t: Tests, v: Json)
    ensures Leaks(t, Scrub(t, v), false, []) == {} <==> forall p :: p in PassedOn(t, v, []) ==> Harmless(t, p)
  {
    RedactionGivesAway(t, v);
    if p :| p in PassedOn(t, v, []) && !Harmless(t, p) {
      assert Leak(p.at, Shown(t, p), p.kind.FieldName?) in Given(t, PassedOn(t, v, []));
    }
  }

  // ----- sensitive texts that are logged -----

  /** A list of one entry, under a field. */
  lemma OneEntry(t: Tests, field: string, s: string)
    requires EnvLike(Str(s))
    ensures var out, logged := Scrub(t, Obj(map[field := Arr([Str(s)])])), ScrubbedEntry(t, s);
            && out == Obj(map[field := Arr([Str(logged)])])
            && (Sensitive(t, logged, t.key(field)) ==> Leak([Field(field), Item(0)], logged, false) in Leaks(t, out, false, []))
  {
    var items, logged := [Str(s)], ScrubbedEntry(t, s);
    EntryShown(t, s);
    assert LooksLikeEnvList(items) && ScrubEnv(t, items) == [Str(logged)];
    var out := Obj(map[field := Arr([Str(logged)])]);
    assert Scrub(t, Obj(map[field := Arr(items)])).fields == out.fields;
    if Sensitive(t, logged, t.key(field)) {
      var l := Leak([Field(field), Item(0)], logged, false);
      assert [] + [Field(field)] == [Field(field)] && [Field(field)] + [Item(0)] == l.at;
      assert l in Leaks(t, Str(logged), t.key(field), l.at);
      assert l in Leaks(t, Arr([Str(logged)]), t.key(field), [Field(field)]) by {
        assert [Str(logged)][0] == Str(logged);
      }
      assert field in out.fields && l in FieldLeaks(t, field, out.fields[field], false, [Field(field)]);
    }
  }

  lemma NameIs(s: string, name: string, rest: string)
    requires s == name + "=" + rest && '=' !in name
    ensures EnvLike(Str(s)) && Name(s) == name && (Named(s) <==> name != "") && (Marked(s) <==> rest == REDACTED)
    ensures s != REDACTED
  {
    IndexOfUnique(s, '=', |name|);
    assert s[..|name|] == name && s[|name| + 1..] == rest;
    EnvLikeIsNotTheMark(s);
  }

  lemma NotTheMark(s: string)
    requires s == "" || s[0] != '<'
    ensures s != REDACTED
  {
    assert REDACTED[0] == '<';
  }

  /** An entry without a name is passed on with its text. */
  lemma NamelessEntryIsLogged(t: Tests)
    requires t.text("=password=hunter2")
    ensures var v := Obj(map["args" := Arr([Str("=password=hunter2")])]);
            && Scrub(t, v) == v
            && Leak([Field("args"), Item(0)], "=password=hunter2", false) in Leaks(t, Scrub(t, v), false, [])
  {
    var s := "=password=hunter2";
    assert s == "" + "=" + "password=hunter2";
    NotTheMark("password=hunter2");
    NameIs(s, "", "password=hunter2");
    OneEntry(t, "args", s);
  }

  /** A token before the equals sign is passed on as a name, with or without the mark. */
  lemma TokenAsNameIsLogged(t: Tests, token: string)
    requires token != "" && '=' !in token && t.text(token)
    ensures var out := Scrub(t, Obj(map["args" := Arr([Str(token + "=")])]));
            var logged := if t.key(token) || t.text(token + "=") then token + "=" + REDACTED else token + "=";
            && out == Obj(map["args" := Arr([Str(logged)])])
            && Leak([Field("args"), Item(0)], logged, false) in Leaks(t, out, false, [])
  {
    assert token + "=" == token + "=" + "";
    NameIs(token + "=", token, "");
    NameIs(token + "=" + REDACTED, token, REDACTED);
    OneEntry(t, "args", token + "=");
  }

  /** An entry of a list under a sensitive field is passed on if nothing about the entry itself is sensitive. */
  lemma SecretListIsLogged(t: Tests)
    requires t.key("password") && !t.key("a") && !t.text("a=hunter2")
    ensures var v := Obj(map["password" := Arr([Str("a=hunter2")])]);
            && Scrub(t, v) == v
            && Leak([Field("password"), Item(0)], "a=hunter2", false) in Leaks(t, Scrub(t, v), false, [])
  {
    NotTheMark("hunter2");
    assert "a=hunter2" == "a" + "=" + "hunter2";
    NameIs("a=hunter2", "a", "hunter2");
    OneEntry(t, "password", "a=hunter2");
  }

  /** In a list at the top the names of entries are not looked at. */
  lemma TopEntryIsLogged(t: Tests)
    requires t.key("AUTH") && !t.text("AUTH=hunter2")
    ensures var v := Arr([Str("AUTH=hunter2")]);
            Scrub(t, v) == v && Leak([Item(0)], "AUTH=hunter2", false) in Leaks(t, Scrub(t, v), false, [])
  {
    assert "AUTH=hunter2" == "AUTH" + "=" + "hunter2";
    SensitiveName(t, "AUTH=hunter2", "AUTH", "hunter2");
    TopItem(t, "AUTH=hunter2");
  }

  lemma TopItem(t: Tests, s: string)
    requires !t.text(s) && Sensitive(t, s, false)
    ensures var v := Arr([Str(s)]); Scrub(t, v) == v && Leak([Item(0)], s, false) in Leaks(t, Scrub(t, v), false, [])
  {
    var v := Arr([Str(s)]);
    assert Scrub(t, v).items == [Str(s)];
    ItemLeaks(t, [Str(s)], 0, s, []);
    assert [] + [Item(0)] == [Item(0)];
  }

  /** Nor are they in a list that has an item without an equals sign. */
  lemma MixedListIsLogged(t: Tests)
    requires t.key("AUTH") && !t.key("args") && !t.text("run") && !t.text("AUTH=hunter2")
    ensures var v := Obj(map["args" := Arr([Str("run"), Str("AUTH=hunter2")])]);
            && Scrub(t, v) == v
            && Leak([Field("args"), Item(1)], "AUTH=hunter2", false) in Leaks(t, Scrub(t, v), false, [])
  {
    assert "AUTH=hunter2" == "AUTH" + "=" + "hunter2";
    SensitiveName(t, "AUTH=hunter2", "AUTH", "hunter2");
    assert IndexOf("run", '=') == |"run"|;
    SecondItem(t, "args", "run", "AUTH=hunter2");
  }

  lemma SecondItem(t: Tests, field: string, first: string, s: string)
    requires !t.key(field) && !EnvLike(Str(first)) && !t.text(first) && !t.text(s) && Sensitive(t, s, false)
    ensures var v := Obj(map[field := Arr([Str(first), Str(s)])]);
            Scrub(t, v) == v && Leak([Field(field), Item(1)], s, false) in Leaks(t, Scrub(t, v), false, [])
  {
    var items := [Str(first), Str(s)];
    assert !EnvLike(items[0]) && !LooksLikeEnvList(items);
    assert Scrub(t, Arr(items)).items == items;
    assert ScrubField(t, field, Arr(items)) == ScrubValue(t, Arr(items)) == Arr(items);
    var v := Obj(map[field := Arr(items)]);
    assert Scrub(t, v).fields == v.fields;
    ItemLeaks(t, items, 1, s, [Field(field)]);
    assert [] + [Field(field)] == [Field(field)] && [Field(field)] + [Item(1)] == [Field(field), Item(1)];
    assert field in v.fields;
    assert Leak([Field(field), Item(1)], s, false) in FieldLeaks(t, field, v.fields[field], false, [Field(field)]);
  }

  lemma SensitiveName(t: Tests, s: string, name: string, rest: string)
    requires s == name + "=" + rest && name != "" && '=' !in name && t.key(name) && (rest == "" || rest[0] != '<')
    ensures Sensitive(t, s, false)
  {
    NotTheMark(rest);
    NameIs(s, name, rest);
  }

  lemma ItemLeaks(t: Tests, items: seq<Json>, i: nat, s: string, at: Path)
    requires i < |items| && items[i] == Str(s) && Sensitive(t, s, false)
    ensures Leak(at + [Item(i)], s, false) in Leaks(t, Arr(items), false, at)
  {
    assert Leak(at + [Item(i)], s, false) in Leaks(t, items[i], false, at + [Item(i)]);
  }

  /** A text at the top is logged as it is. */
  lemma TopTextIsLogged(t: Tests)
    requires t.text("password=hunter2")
    ensures var v := Str("password=hunter2");
            Scrub(t, v) == v && Leak([], "password=hunter2", false) in Leaks(t, Scrub(t, v), false, [])
  {
    assert "password=hunter2" == "password" + "=" + "hunter2";
    NotTheMark("hunter2");
    NameIs("password=hunter2", "password", "hunter2");
    TopText(t, "password=hunter2");
  }

  lemma TopText(t: Tests, s: string)
    requires Sensitive(t, s, false)
    ensures Scrub(t, Str(s)) == Str(s) && Leak([], s, false) in Leaks(t, Scrub(t, Str(s)), false, [])
  {
  }

  // ----- what is not sensitive is kept -----

  /** Only what is sensitive was changed: numbers and the like never; a text became the mark only if it hits the text
      test, or kept its name and lost its value only if it or its name is sensitive; a field became the mark only if
      its name is sensitive. */
  predicate OnlySensitive(t: Tests, v: Json, r: Json)
    decreases v
  {
    match v
    case Other(_) => r == v
    case Str(s) =>
      || r == v
      || (r == Str(REDACTED) && t.text(s))
      || (Named(s) && (t.key(Name(s)) || t.text(s)) && r == Str(Name(s) + "=" + REDACTED))
    case Arr(items) =>
      r.Arr? && |r.items| == |items| && forall i :: 0 <= i < |items| ==> OnlySensitive(t, items[i], r.items[i])
    case Obj(fields) =>
      && r.Obj? && r.fields.Keys == fields.Keys
      && forall k :: k in fields ==> OnlySensitive(t, fields[k], r.fields[k]) || (t.key(k) && r.fields[k] == Str(REDACTED))
  }

  lemma {:induction false} SameIsKept(t: Tests, v: Json)
    ensures OnlySensitive(t, v, v)
    decreases v
  {
    match v
    case Arr(items) =>
      forall i | 0 <= i < |items| ensures OnlySensitive(t, items[i], items[i]) {
        SameIsKept(t, items[i]);
      }
    case Obj(fields) =>
      forall k | k in fields ensures OnlySensitive(t, fields[k], fields[k]) {
        SameIsKept(t, fields[k]);
      }
    case _ =>
  }

  lemma EnvIsKept(t: Tests, items: seq<Json>)
    ensures OnlySensitive(t, Arr(items), Arr(ScrubEnv(t, items)))
  {
    forall i | 0 <= i < |items| ensures OnlySensitive(t, items[i], ScrubEnv(t, items)[i]) {
      SameIsKept(t, items[i]);
    }
  }

  lemma {:induction false} ValueIsKept(t: Tests, v: Json)
    ensures OnlySensitive(t, v, ScrubValue(t, v))
    decreases v, 1
  {
    if v.Arr? && LooksLikeEnvList(v.items) {
      EnvIsKept(t, v.items);
    } else {
      RestIsKept(t, v);
    }
  }

  /** Redaction changes only what is sensitive. */
  lemma {:induction false} RestIsKept(t: Tests, v: Json)
    ensures OnlySensitive(t, v, Scrub(t, v))
    decreases v, 0
  {
    match v
    case Obj(fields) =>
      forall k | k in fields
        ensures OnlySensitive(t, fields[k], Scrub(t, v).fields[k]) || (t.key(k) && Scrub(t, v).fields[k] == Str(REDACTED))
      {
        if fields[k].Arr? && LooksLikeEnvList(fields[k].items) {
          EnvIsKept(t, fields[k].items);
        } else if !t.key(k) {
          ValueIsKept(t, fields[k]);
        }
      }
    case Arr(items) =>
      forall i | 0 <= i < |items| ensures OnlySensitive(t, items[i], Scrub(t, v).items[i]) {
        ValueIsKept(t, items[i]);
      }
    case _ =>
  }

  // ----- the text test, without any condition -----

  predicate CleanText(t: Tests, s: string) {
    !t.text(s) || s == REDACTED
  }

  /** Every text outside environment lists passes the text test or is the mark. */
  predicate TextsClean(t: Tests, v: Json)
    decreases v, 1
  {
    match v
    case Str(s) => CleanText(t, s)
    case Arr(items) => LooksLikeEnvList(items) || TextsBelowClean(t, v)
    case _ => TextsBelowClean(t, v)
  }

  /** The same for everything below the top, where a list is never an environment list. */
  predicate TextsBelowClean(t: Tests, v: Json)
    decreases v, 0
  {
    match v
    case Arr(items) => forall i :: 0 <= i < |items| ==> TextsClean(t, items[i])
    case Obj(fields) => forall k :: k in fields ==> TextsClean(t, fields[k])
    case _ => true
  }

  lemma {:induction false} ValueTextsClean(t: Tests, v: Json)
    ensures TextsClean(t, ScrubValue(t, v))
    decreases v, 1
  {
    match v
    case Arr(items) =>
      if LooksLikeEnvList(items) {
        EnvSettled(t, items);
      } else {
        TextsAreClean(t, v);
      }
    case Obj(_) => TextsAreClean(t, v);
    case _ =>
  }

  /** Whatever else is in the value: below the top and outside environment lists every text that is left passes the
      text test or is the mark. */
  lemma {:induction false} TextsAreClean(t: Tests, v: Json)
    ensures TextsBelowClean(t, Scrub(t, v))
    decreases v, 0
  {
    match v
    case Obj(fields) =>
      forall k | k in fields ensures TextsClean(t, Scrub(t, v).fields[k]) {
        if fields[k].Arr? && LooksLikeEnvList(fields[k].items) {
          EnvSettled(t, fields[k].items);
        } else {
          ValueTextsClean(t, fields[k]);
        }
      }
    case Arr(items) =>
      forall i | 0 <= i < |items| ensures TextsClean(t, Scrub(t, v).items[i]) {
        ValueTextsClean(t, items[i]);
      }
    case _ =>
  }

  // ----- the loops -----

  /** The entries of an environment list, overwritten in place. */
  method ScrubEnvListInPlace(t: Tests, arr: array<Json>)
    modifies arr
    ensures arr[..] == ScrubEnv(t, old(arr[..]))
  {
    for i := 0 to arr.Length
      invariant forall k :: 0 <= k < i ==> arr[k] == ScrubEnvEntry(t, old(arr[k]))
      invariant forall k :: i <= k < arr.Length ==> arr[k] == old(arr[k])
    {
      var v := arr[i];
      if v.Str? {
        var k := IndexOf(v.s, '=');
        if 0 < k < |v.s| {
          var name := v.s[..k];
          if t.key(name) || t.text(v.s) {
            arr[i] := Str(name + "=" + REDACTED);
          }
        }
      }
    }
  }

  method ScrubEnvList(t: Tests, items: seq<Json>) returns (r: seq<Json>)
    ensures r == ScrubEnv(t, items)
  {
    var arr := new Json[|items|](i requires 0 <= i < |items| => items[i]);
    assert arr[..] == items;
    ScrubEnvListInPlace(t, arr);
    r := arr[..];
  }

  /** The fields of an object, overwritten one by one in an arbitrary order. */
  method ScrubObject(t: Tests, v: Json) returns (r: Json)
    requires v.Obj?
    ensures r == Scrub(t, v)
    decreases v, 0
  {
    var fields := v.fields;
    var todo := fields.Keys;
    while todo != {}
      invariant todo <= fields.Keys == v.fields.Keys
      invariant forall k :: k in fields ==> fields[k] == if k in todo then v.fields[k] else ScrubField(t, k, v.fields[k])
      decreases |todo|
    {
      var k :| k in todo;
      var val := fields[k];
      assert val == v.fields[k];
      if val.Arr? && LooksLikeEnvList(val.items) {
        var list := ScrubEnvList(t, val.items);
        val := Arr(list);
      } else if t.key(k) {
        val := Str(REDACTED);
      } else {
        val := ScrubOne(t, val);
      }
      fields := fields[k := val];
      todo := todo - {k};
    }
    assert fields == Scrub(t, v).fields;
    r := Obj(fields);
  }

  /** The items of a list, overwritten in order. */
  method ScrubItems(t: Tests, v: Json) returns (r: Json)
    requires v.Arr?
    ensures r == Scrub(t, v)
    decreases v, 0
  {
    var items := v.items;
    for i := 0 to |items|
      invariant |items| == |v.items|
      invariant forall k :: 0 <= k < |items| ==> items[k] == if k < i then ScrubValue(t, v.items[k]) else v.items[k]
    {
      assert items[i] == v.items[i];
      var one := ScrubOne(t, v.items[i]);
      items := items[i := one];
    }
    assert items == Scrub(t, v).items;
    r := Arr(items);
  }

  method ScrubOne(t: Tests, v: Json) returns (r: Json)
    ensures r == ScrubValue(t, v)
    decreases v, 1
  {
    match v
    case Obj(_) => r := ScrubObject(t, v);
    case Arr(items) =>
      if LooksLikeEnvList(items) {
        var list := ScrubEnvList(t, items);
        r := Arr(list);
      } else {
        r := ScrubItems(t, v);
      }
    case Str(s) => r := if t.text(s) then Str(REDACTED) else v;
    case Other(_) => r := v;
  }

  /** What the log says of a request's arguments: nothing, that they are no JSON, or the redacted value. */
  datatype Logged = Empty | Unparseable | Redacted(v: Json)

  /** `decode` is the JSON decoder; None is its error. */
  method RedactArgs(t: Tests, raw: string, decode: string -> Option<Json>) returns (r: Logged)
    ensures r == if raw == "" then Empty else if decode(raw).None? then Unparseable else Redacted(Scrub(t, decode(raw).value))
  {
    if raw == "" {
      return Empty;
    }
    var v := decode(raw);
    if v.None? {
      return Unparseable;
    }
    var scrubbed := v.value;
    match scrubbed
    case Obj(_) =>
      scrubbed := ScrubObject(t, scrubbed);
      r := Redacted(scrubbed);
    case Arr(_) =>
      scrubbed := ScrubItems(t, scrubbed);
      r := Redacted(scrubbed);
    case _ => r := Redacted(scrubbed);
  }
}
