/** What `WA._askWA` makes of the provider's reply once the HTTP request has
    returned: an error string for a non-OK status, otherwise one answer item
    per primary, non-`Input` pod that keeps a fragment, in pod order, followed
    by the link to the query on the WolframAlpha site, or the lone
    "No results." item. */
module Answers {
  import opened Strings

  datatype Option<T> = None | Some(value: T)

  /** The launcher's item categories the plugin uses. */
  datatype Category = Keyword | Expression | Url | OtherCategory

  /** A suggestion item as the plugin fills it in. */
  datatype Item = Item(category: Category, caption: string, shortDesc: string, target: string)

  /** One `pod` element of the parsed reply: whether its `primary` attribute
      is `'true'`, its `id` and `title` attributes, and the text of each
      `subpod/plaintext` element under it, in document order (None when the
      element has no text). */
  datatype Pod = Pod(primary: bool, id: string, title: string, plaintexts: seq<Option<string>>)

  /** The HTTP status and the pods of the parsed body, in document order. */
  datatype Reply = Reply(status: nat, pods: seq<Pod>)

  /** The Python value `_askWA` returns: a bare string, a bare item or a list
      of items; Crashed stands for the AttributeError raised on a plaintext
      element without text. */
  datatype Value = Message(text: string) | Single(item: Item) | Listing(items: seq<Item>) | Crashed

  const StatusOk: nat := 200
  const ErrorPrefix := "Error getting query: "
  const QueryUrlPrefix := "http://www.wolframalpha.com/input/?i="
  const CopyHint := "Press Enter to copy to clipboard"
  const LinkHint := "Press Enter to see your query at WolframAlpha."
  const NoResults := Item(Expression, "= No results.", CopyHint, "No results.")

  function AnswerItem(line: string): Item
  {
    Item(Expression, "= " + line, CopyHint, line)
  }

  function AnswerItems(lines: seq<string>): (items: seq<Item>)
    ensures |items| == |lines|
  {
    if lines == [] then []
    else AnswerItems(lines[..|lines| - 1]) + [AnswerItem(lines[|lines| - 1])]
  }

  lemma AnswerItemsAppend(lines: seq<string>, line: string)
    ensures AnswerItems(lines + [line]) == AnswerItems(lines) + [AnswerItem(line)]
  {
    assert (lines + [line])[..|lines|] == lines;
  }

  /** One answer item per line, in the order of the lines. */
  lemma {:induction false} AnswerItemsAt(lines: seq<string>)
    ensures forall k | 0 <= k < |lines| :: AnswerItems(lines)[k] == AnswerItem(lines[k])
    decreases |lines|
  {
    if lines != [] {
      AnswerItemsAt(lines[..|lines| - 1]);
    }
  }

  /** The item that opens the query in a browser; its label is the query. */
  function LinkItem(text: string, quote: string -> string): Item
  {
    Item(Url, text, LinkHint, QueryUrlPrefix + quote(text))
  }

  /** A fragment as the plugin keeps it. */
  predicate IsFragment(f: string)
  {
    f != [] && !IsSpace(f[0]) && NoSpaceRun(f) && !HasEscape(f)
  }

  /** Only these pods are looked at: `findall` selects the primary ones and
      the loop skips the echo of the input. */
  predicate Contributes(p: Pod)
  {
    p.primary && p.id != "Input"
  }

  /** Joins two partial results; a crash on either side is a crash. */
  function Then(a: Option<seq<string>>, b: Option<seq<string>>): Option<seq<string>>
  {
    if a.Some? && b.Some? then Some(a.value + b.value) else None
  }

  /** The normalised, non-empty fragments of a pod's plaintext leaves, in
      order; None when a leaf has no text. */
  function Fragments(texts: seq<Option<string>>): (r: Option<seq<string>>)
    ensures r.None? <==> None in texts
    ensures r.Some? ==> |r.value| <= |texts|
  {
    if texts == [] then Some([])
    else
      var init := texts[..|texts| - 1];
      var last := texts[|texts| - 1];
      assert texts == init + [last];
      if last.None? then None
      else Then(Fragments(init), Some(Kept(Normalize(last.value))))
  }

  /** Every fragment kept is non-empty, starts with no whitespace, and holds
      no whitespace run and no backslash-`n` pair. */
  lemma {:induction false} FragmentsWellFormed(texts: seq<Option<string>>)
    requires Fragments(texts).Some?
    ensures forall j | 0 <= j < |Fragments(texts).value| :: IsFragment(Fragments(texts).value[j])
    decreases |texts|
  {
    if texts != [] {
      var init := texts[..|texts| - 1];
      var last := texts[|texts| - 1];
      var f := Normalize(last.value);
      NormalizeWellFormed(last.value);
      var prev := Fragments(init).value;
      var r := Fragments(texts).value;
      assert r == prev + Kept(f);
      FragmentsWellFormed(init);
      forall j | 0 <= j < |r|
        ensures IsFragment(r[j])
      {
        if j < |prev| {
          assert r[j] == prev[j];
        } else {
          assert r[j] == f;
        }
      }
    }
  }

  /** The `if subpod:` filter: an empty fragment is dropped. */
  function Kept(f: string): seq<string>
  {
    if f == [] then [] else [f]
  }

  /** `title + ': ' + ', '.join(results)`. */
  function AnswerLine(title: string, fragments: seq<string>): string
  {
    title + ": " + Join(", ", fragments)
  }

  /** What one pod adds to the answer lines: nothing, one line, or a crash. */
  function PodLines(p: Pod): Option<seq<string>>
  {
    if !Contributes(p) then Some([])
    else match Fragments(p.plaintexts)
      case None => None
      case Some(fs) => if fs == [] then Some([]) else Some([AnswerLine(p.title, fs)])
  }

  /** The answer lines of a sequence of pods, in pod order. */
  function AnswerLines(pods: seq<Pod>): Option<seq<string>>
  {
    if pods == [] then Some([])
    else Then(AnswerLines(pods[..|pods| - 1]), PodLines(pods[|pods| - 1]))
  }

  /** Everything `_askWA` does after the request has returned, as a value. */
  function FormatReply(text: string, reply: Reply, quote: string -> string): (r: Value)
    ensures reply.status != StatusOk ==> r.Message?
    ensures r.Crashed? <==> reply.status == StatusOk && AnswerLines(reply.pods).None?
    ensures r.Single? ==> r.item == NoResults
    ensures r.Listing? ==> |r.items| >= 2 && r.items[|r.items| - 1] == LinkItem(text, quote)
    ensures r.Listing? ==> forall k | 0 <= k < |r.items| - 1 ::
      r.items[k].category == Expression && r.items[k].caption == "= " + r.items[k].target
  {
    if reply.status != StatusOk then Message(ErrorPrefix + Decimal(reply.status))
    else match AnswerLines(reply.pods)
      case None => Crashed
      case Some(lines) =>
        if lines == [] then Single(NoResults)
        else
          AnswerItemsAt(lines);
          Listing(AnswerItems(lines) + [LinkItem(text, quote)])
  }

  // ---------------------------------------------------------------------
  // The loop of `_askWA`

  /** The inner loop of `_askWA` over one pod's `subpod/plaintext` elements:
      each text is stripped, has its backslash-`n` pairs replaced and its
      whitespace collapsed, and is appended to `results` when non-empty. */
  method CollectFragments(texts: seq<Option<string>>) returns (r: Option<seq<string>>)
    ensures r == Fragments(texts)
  {
    var results: seq<string> := [];
    var j := 0;
    while j < |texts|
      invariant 0 <= j <= |texts|
      invariant Fragments(texts[..j]) == Some(results)
    {
      assert texts[..j + 1][..j] == texts[..j];
      if texts[j].None? {
        // `subpod.text.strip()` on None raises AttributeError
        assert texts[j] in texts;
        return None;
      }
      var fragment := Strip(texts[j].value);
      fragment := ReplaceEscapes(fragment);
      fragment := Collapse(fragment);
      assert fragment == Normalize(texts[j].value);
      ghost var done := texts[..j + 1];
      assert Fragments(done) == Then(Fragments(texts[..j]), Some(Kept(fragment)));
      if fragment != [] {
        results := results + [fragment];
      } else {
        assert results + Kept(fragment) == results;
      }
      j := j + 1;
      assert Fragments(texts[..j]) == Some(results);
    }
    assert texts[..j] == texts;
    return Some(results);
  }

  /** One pass of the loop over the pods, up to the answer line: a pod that
      is not looked at, or keeps no fragment, adds nothing. */
  method CollectPod(pod: Pod) returns (line: Option<seq<string>>)
    ensures line == PodLines(pod)
    ensures line.Some? && line.value != [] ==> |line.value| == 1 && line.value[0] != []
  {
    if !Contributes(pod) {
      return Some([]);
    }
    var results := CollectFragments(pod.plaintexts);
    if results.None? {
      return None;
    }
    if results.value == [] {
      return Some([]);
    }
    return Some([AnswerLine(pod.title, results.value)]);
  }

  /** What the loop over the pods has built from the pods whose answer
      lines are `lines`: one item per line, and `pod_texts` the last line,
      set together with `ret`. */
  ghost predicate Collected(lines: seq<string>, suggestions: seq<Item>, podTexts: string, retSet: bool)
  {
    suggestions == AnswerItems(lines)
    && (lines == [] ==> podTexts == [])
    && (lines != [] ==> podTexts == lines[|lines| - 1] && podTexts != [] && retSet)
  }

  /** One pass of the loop over the pods: the pod at `i` either crashes the
      loop or adds its answer line, if any, to what has been collected. */
  method CollectStep(pods: seq<Pod>, i: nat, ghost lines: seq<string>, suggestions: seq<Item>, podTexts: string, retSet: bool)
    returns (crashed: bool, suggestions': seq<Item>, podTexts': string, retSet': bool, ghost lines': seq<string>)
    requires i < |pods| && AnswerLines(pods[..i]) == Some(lines)
    requires Collected(lines, suggestions, podTexts, retSet)
    ensures crashed <==> PodLines(pods[i]).None?
    ensures crashed ==> AnswerLines(pods).None?
    ensures !crashed ==> AnswerLines(pods[..i + 1]) == Some(lines')
    ensures !crashed ==> Collected(lines', suggestions', podTexts', retSet')
  {
    var line := CollectPod(pods[i]);
    AnswersNextPod(pods, i, lines);
    suggestions', podTexts', retSet', lines' := suggestions, podTexts, retSet, lines;
    if line.None? {
      return true, suggestions', podTexts', retSet', lines';
    }
    crashed := false;
    if line.value != [] {
      retSet' := true;
      podTexts' := line.value[0];
      AnswerItemsAppend(lines, podTexts');
      suggestions' := suggestions + [AnswerItem(podTexts')];
      assert line.value == [podTexts'];
      lines' := lines + [podTexts'];
    } else {
      assert lines + [] == lines;
    }
  }

  /** The loop of `_askWA` over the primary pods: a pod whose id is `Input`
      is skipped, and every other pod that keeps a fragment appends an answer
      item and becomes `pod_texts`. A leaf without text makes the loop raise,
      here `None`. `retSet` tells whether `ret = 1` has run. */
  method CollectAnswers(pods: seq<Pod>) returns (answers: Option<seq<Item>>, podTexts: string, retSet: bool)
    ensures answers.None? <==> AnswerLines(pods).None?
    ensures answers.Some? ==> Collected(AnswerLines(pods).value, answers.value, podTexts, retSet)
  {
    var suggestions: seq<Item> := [];
    podTexts := "";
    retSet := false;
    ghost var lines: seq<string> := [];
    var i := 0;
    assert pods[..i] == [];
    while i < |pods|
      invariant 0 <= i <= |pods|
      invariant AnswerLines(pods[..i]) == Some(lines)
      invariant Collected(lines, suggestions, podTexts, retSet)
    {
      var crashed;
      crashed, suggestions, podTexts, retSet, lines := CollectStep(pods, i, lines, suggestions, podTexts, retSet);
      if crashed {
        return None, podTexts, retSet;
      }
      i := i + 1;
    }
    assert pods[..i] == pods;
    return Some(suggestions), podTexts, retSet;
  }

  /** `_askWA` from the status check on: the loop over the pods, then the
      fallback or the link item. */
  method AskWA(text: string, reply: Reply, quote: string -> string) returns (v: Value)
    ensures v == FormatReply(text, reply, quote)
  {
    if reply.status != StatusOk {
      return Message(ErrorPrefix + Decimal(reply.status));
    }
    var suggestions, podTexts, retSet := CollectAnswers(reply.pods);
    if suggestions.None? {
      return Crashed;
    }
    if podTexts == [] {
      return Single(NoResults);
    }
    var items := suggestions.value + [LinkItem(text, quote)];
    // `if not ret:` (a second "No results." return) is never taken: `ret`
    // was set together with the non-empty `pod_texts`
    assert retSet;
    return Listing(items);
  }

  // ---------------------------------------------------------------------
  // Properties of the reply formatting

  /** A crash in one pod makes the whole reply crash. */
  lemma {:induction false} AnswersCrash(pods: seq<Pod>, i: nat)
    requires i < |pods| && PodLines(pods[i]).None?
    ensures AnswerLines(pods).None?
    decreases |pods|
  {
    var init := pods[..|pods| - 1];
    if i < |pods| - 1 {
      assert init[i] == pods[i];
      AnswersCrash(init, i);
    }
  }

  /** Conversely, a crash comes only from a contributing pod with a leaf
      that has no text. */
  lemma {:induction false} AnswersCrashOnlyIf(pods: seq<Pod>)
    requires AnswerLines(pods).None?
    ensures exists i | 0 <= i < |pods| :: Contributes(pods[i]) && None in pods[i].plaintexts
    decreases |pods|
  {
    var init := pods[..|pods| - 1];
    var last := pods[|pods| - 1];
    PodLinesShape(last);
    if PodLines(last).None? {
      assert Contributes(pods[|pods| - 1]) && None in pods[|pods| - 1].plaintexts;
    } else {
      AnswersCrashOnlyIf(init);
      var i :| 0 <= i < |init| && Contributes(init[i]) && None in init[i].plaintexts;
      assert pods[i] == init[i];
    }
  }

  /** No pod contributes more than one answer line. */
  lemma {:induction false} AnswerLinesLength(pods: seq<Pod>)
    requires AnswerLines(pods).Some?
    ensures |AnswerLines(pods).value| <= |pods|
    decreases |pods|
  {
    if pods != [] {
      var init := pods[..|pods| - 1];
      PodLinesShape(pods[|pods| - 1]);
      AnswerLinesLength(init);
    }
  }

  /** The answer lines of two consecutive runs of pods are those of the first
      followed by those of the second: pod order is kept and no pod's lines
      depend on another pod. */
  lemma {:induction false} AnswersAppend(a: seq<Pod>, b: seq<Pod>)
    ensures AnswerLines(a + b) == Then(AnswerLines(a), AnswerLines(b))
    decreases |b|
  {
    if b == [] {
      assert a + b == a;
      var x := AnswerLines(a);
      assert x.Some? ==> x.value + [] == x.value;
    } else {
      var b' := b[..|b| - 1];
      var last := b[|b| - 1];
      AnswersAppend(a, b');
      assert (a + b)[..|a + b| - 1] == a + b';
      assert (a + b)[|a + b| - 1] == last;
      assert AnswerLines(a + b) == Then(AnswerLines(a + b'), PodLines(last));
      assert AnswerLines(b) == Then(AnswerLines(b'), PodLines(last));
      ThenAssociative(AnswerLines(a), AnswerLines(b'), PodLines(last));
    }
  }

  /** Answers over a prefix, one pod longer. */
  lemma AnswersStep(pods: seq<Pod>, i: nat)
    requires i < |pods|
    ensures AnswerLines(pods[..i + 1]) == Then(AnswerLines(pods[..i]), PodLines(pods[i]))
  {
    assert pods[..i + 1][..i] == pods[..i];
  }

  /** The loop's bookkeeping for one more pod. */
  lemma AnswersNextPod(pods: seq<Pod>, i: nat, lines: seq<string>)
    requires i < |pods| && AnswerLines(pods[..i]) == Some(lines)
    ensures PodLines(pods[i]).None? ==> AnswerLines(pods).None?
    ensures PodLines(pods[i]).Some? ==> AnswerLines(pods[..i + 1]) == Some(lines + PodLines(pods[i]).value)
  {
    AnswersStep(pods, i);
    if PodLines(pods[i]).None? {
      AnswersCrash(pods, i);
    }
  }

  lemma ThenAssociative(x: Option<seq<string>>, y: Option<seq<string>>, z: Option<seq<string>>)
    ensures Then(Then(x, y), z) == Then(x, Then(y, z))
  {
    if x.Some? && y.Some? && z.Some? {
      assert (x.value + y.value) + z.value == x.value + (y.value + z.value);
    }
  }

  /** Each pod yields at most one answer line, built from its title and its
      fragments; pods that are not primary or are the `Input` echo yield none. */
  lemma PodLinesShape(p: Pod)
    ensures PodLines(p).None? <==> Contributes(p) && None in p.plaintexts
    ensures PodLines(p).Some? ==> |PodLines(p).value| <= 1
    ensures !Contributes(p) ==> PodLines(p) == Some([])
    ensures PodLines(p).Some? && PodLines(p).value != [] ==>
      var fs := Fragments(p.plaintexts).value;
      fs != [] && PodLines(p).value == [AnswerLine(p.title, fs)]
  {
  }

  /** The pods that `_askWA` looks at. */
  function ContributingPods(pods: seq<Pod>): (r: seq<Pod>)
    ensures forall k | 0 <= k < |r| :: Contributes(r[k])
    ensures forall p :: p in r <==> p in pods && Contributes(p)
    ensures |r| <= |pods|
  {
    if pods == [] then []
    else
      var init := ContributingPods(pods[..|pods| - 1]);
      if Contributes(pods[|pods| - 1]) then init + [pods[|pods| - 1]] else init
  }

  /** The filter keeps pod order: filtering two runs of pods one after the
      other is filtering their concatenation. */
  lemma {:induction false} ContributingPodsAppend(a: seq<Pod>, b: seq<Pod>)
    ensures ContributingPods(a + b) == ContributingPods(a) + ContributingPods(b)
    decreases |b|
  {
    if b == [] {
      assert a + b == a;
      assert ContributingPods(a) + [] == ContributingPods(a);
    } else {
      var init := b[..|b| - 1];
      var last := b[|b| - 1];
      assert (a + b)[..|a + b| - 1] == a + init;
      assert (a + b)[|a + b| - 1] == last;
      ContributingPodsAppend(a, init);
      if Contributes(last) {
        assert ContributingPods(a + b) == ContributingPods(a) + ContributingPods(init) + [last];
      }
    }
  }

  /** Only primary, non-`Input` pods matter: dropping the others changes
      nothing. */
  lemma {:induction false} AnswersOnlyContributing(pods: seq<Pod>)
    ensures AnswerLines(pods) == AnswerLines(ContributingPods(pods))
    decreases |pods|
  {
    if pods != [] {
      var init := pods[..|pods| - 1];
      var last := pods[|pods| - 1];
      AnswersOnlyContributing(init);
      if Contributes(last) {
        var c := ContributingPods(init);
        assert (c + [last])[..|c + [last]| - 1] == c;
      } else {
        var a := AnswerLines(init);
        assert a.Some? ==> a.value + [] == a.value;
      }
    }
  }

  /** The reply has no answer exactly when every pod yields nothing. */
  lemma AnswersEmpty(pods: seq<Pod>)
    ensures AnswerLines(pods) == Some([]) <==> forall k | 0 <= k < |pods| :: PodLines(pods[k]) == Some([])
  {
    if forall k | 0 <= k < |pods| :: PodLines(pods[k]) == Some([]) {
      AnswersEmptyIf(pods);
    }
    if AnswerLines(pods) == Some([]) {
      AnswersEmptyOnlyIf(pods);
    }
  }

  lemma {:induction false} AnswersEmptyIf(pods: seq<Pod>)
    requires forall k | 0 <= k < |pods| :: PodLines(pods[k]) == Some([])
    ensures AnswerLines(pods) == Some([])
    decreases |pods|
  {
    if pods != [] {
      var init := pods[..|pods| - 1];
      forall k | 0 <= k < |init|
        ensures PodLines(init[k]) == Some([])
      {
        assert init[k] == pods[k];
      }
      AnswersEmptyIf(init);
      ThenEmpty(AnswerLines(init), PodLines(pods[|pods| - 1]));
    }
  }

  lemma {:induction false} AnswersEmptyOnlyIf(pods: seq<Pod>)
    requires AnswerLines(pods) == Some([])
    ensures forall k | 0 <= k < |pods| :: PodLines(pods[k]) == Some([])
    decreases |pods|
  {
    if pods != [] {
      var init := pods[..|pods| - 1];
      var last := pods[|pods| - 1];
      assert AnswerLines(pods) == Then(AnswerLines(init), PodLines(last));
      ThenEmpty(AnswerLines(init), PodLines(last));
      AnswersEmptyOnlyIf(init);
      forall k | 0 <= k < |pods|
        ensures PodLines(pods[k]) == Some([])
      {
        if k < |init| {
          assert init[k] == pods[k];
        } else {
          assert pods[k] == last;
        }
      }
    }
  }

  lemma ThenEmpty(x: Option<seq<string>>, y: Option<seq<string>>)
    ensures Then(x, y) == Some([]) <==> x == Some([]) && y == Some([])
  {
    if x.Some? && y.Some? && x.value + y.value == [] {
      assert |x.value| + |y.value| == 0;
    }
  }

  /** A non-OK status gives one error string that carries the status code
      and nothing else: no answer and no link. */
  lemma ErrorReply(text: string, reply: Reply, quote: string -> string)
    requires reply.status != StatusOk
    ensures var r := FormatReply(text, reply, quote);
      r.Message? && |r.text| > |ErrorPrefix| && r.text[..|ErrorPrefix|] == ErrorPrefix
      && AllDigits(r.text[|ErrorPrefix|..]) && DecimalValue(r.text[|ErrorPrefix|..]) == reply.status
  {
    var r := FormatReply(text, reply, quote);
    assert r.text[|ErrorPrefix|..] == Decimal(reply.status);
    DecimalRoundTrip(reply.status);
  }

  /** With an OK status the reply crashes exactly when a primary,
      non-`Input` pod has a `plaintext` element without text. */
  lemma CrashReply(text: string, reply: Reply, quote: string -> string)
    requires reply.status == StatusOk
    ensures FormatReply(text, reply, quote).Crashed? <==>
              exists i | 0 <= i < |reply.pods| ::
                Contributes(reply.pods[i]) && None in reply.pods[i].plaintexts
  {
    if AnswerLines(reply.pods).None? {
      AnswersCrashOnlyIf(reply.pods);
    }
    if exists i | 0 <= i < |reply.pods| :: Contributes(reply.pods[i]) && None in reply.pods[i].plaintexts {
      var i :| 0 <= i < |reply.pods| && Contributes(reply.pods[i]) && None in reply.pods[i].plaintexts;
      PodLinesShape(reply.pods[i]);
      AnswersCrash(reply.pods, i);
    }
  }

  /** With an OK status and no pod yielding a line, the result is the lone
      "No results." item, with no link item after it; otherwise (barring a
      crash) the answers come first and the one link item last. */
  lemma NoResultsReply(text: string, reply: Reply, quote: string -> string)
    requires reply.status == StatusOk
    ensures FormatReply(text, reply, quote) == Single(NoResults)
      <==> forall k | 0 <= k < |reply.pods| :: PodLines(reply.pods[k]) == Some([])
    ensures FormatReply(text, reply, quote).Listing? ==>
      var lines := AnswerLines(reply.pods).value;
      FormatReply(text, reply, quote).items == AnswerItems(lines) + [LinkItem(text, quote)]
      && lines != []
  {
    AnswersEmpty(reply.pods);
  }

  /** The link item appears once, as the last item. */
  lemma OneLinkItem(text: string, reply: Reply, quote: string -> string)
    requires FormatReply(text, reply, quote).Listing?
    ensures var items := FormatReply(text, reply, quote).items;
      forall k | 0 <= k < |items| :: items[k].category == Url <==> k == |items| - 1
  {
  }

  /** The fragments of a pod with two leaves, in leaf order. */
  lemma FragmentsPair(texts: seq<Option<string>>)
    requires |texts| == 2 && texts[0].Some? && texts[1].Some?
    ensures Fragments(texts) == Some(Kept(Normalize(texts[0].value)) + Kept(Normalize(texts[1].value)))
  {
    var first := texts[..1];
    var k0 := Kept(Normalize(texts[0].value));
    assert first[..0] == [];
    assert Fragments(first) == Some(k0) by {
      assert Fragments(first) == Then(Fragments(first[..0]), Some(Kept(Normalize(first[0].value))));
      assert [] + k0 == k0;
    }
    assert texts[..|texts| - 1] == first;
  }

  /** A contributing pod with two leaves that both keep a fragment yields
      the line `title: first, second`. */
  lemma PodLinesPair(p: Pod, x: string, y: string)
    requires Contributes(p) && |p.plaintexts| == 2 && p.plaintexts[0].Some? && p.plaintexts[1].Some?
    requires Normalize(p.plaintexts[0].value) == x != [] && Normalize(p.plaintexts[1].value) == y != []
    ensures PodLines(p) == Some([p.title + ": " + x + ", " + y])
  {
    FragmentsPair(p.plaintexts);
    assert Kept(x) + Kept(y) == [x, y];
    assert Join(", ", [x, y]) == x + ", " + y by {
      assert [x, y][1..] == [y];
    }
    var head := p.title + ": ";
    assert head + (x + ", " + y) == head + x + ", " + y by {
      Associative(head, x + ", ", y);
      Associative(head, x, ", ");
    }
  }

  /** A pod with a padded word and two words around a backslash-`n` as its
      leaves, e.g. `"  42  "` and `"foo\nbar"`, gives the answer
      `title: 42, foo; bar`. */
  lemma PaddedAndEscapedLeaves(p: Pod, pad: string, w: string, a: string, b: string)
    requires Contributes(p) && AllSpace(pad) && Bare(w) && w != [] && Bare(a) && Bare(b)
    requires p.plaintexts == [Some(pad + w + pad), Some(a + "\\n" + b)]
    ensures PodLines(p) == Some([p.title + ": " + w + ", " + (a + "; " + b)])
  {
    NormalizePadded(pad, w, pad);
    NormalizeEscaped(a, b);
    PodLinesPair(p, w, a + "; " + b);
  }
}
