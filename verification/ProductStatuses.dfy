/** What each answer of the inspection means, in terms of the records and the files on disk. */
module ProductStatuses {
  import opened Installations
  import opened Texts
  import opened Wrappers

  // ---- What inspection looks at ----

  /** Hashes that name one and the same file, however their letters are cased. */
  ghost predicate NameOneFile(hashes: seq<string>) {
    forall i, j | 0 <= i < |hashes| && 0 <= j < |hashes| :: Same(hashes[i], hashes[j])
  }

  ghost predicate HasExecutable(product: Product) {
    product.executable.Some? && product.executable.value.length >= 65536
  }

  ghost predicate HasTools(d: Installation, toolkit: string) {
    d.hasToolkit && exists c :: c in toolkit && !IsWhiteSpace(c)
  }

  ghost predicate HasState(d: Installation) {
    d.state.Some? && d.state.value.schema == 1 && d.state.value.installDir == Some(d.root)
  }

  ghost predicate HasFingerprint(product: Product) {
    product.fingerprint.Some? && product.fingerprint.value.schema == 1
  }

  /** The fingerprint, the build script's record, the state document and the files on disk agree
      about what was built from what. */
  ghost predicate RecordsAgree(d: Installation, product: Product, profile: string, fingerprint: Fingerprint, installed: InstallState) {
    && HasExecutable(product) && NameOneFile([product.executable.value.sha, fingerprint.executable])
    && d.hasFst && d.dol.Some? && d.rel.Some?
    && product.local.Some? && product.local.value.schema == 1
    && var local := product.local.value;
    && fingerprint.profile == local.profile == profile
    && NameOneFile([d.dol.value.sha, fingerprint.dol, installed.dol, local.dol])
    && NameOneFile([d.rel.value.sha, fingerprint.rel, installed.rel, local.rel])
    && (profile == "retro-rewind" ==>
          && local.payloadMode == Some(fingerprint.payloadMode)
          && NameOneFile([if local.payloadSha.Some? then local.payloadSha.value else "", fingerprint.payloadSha])
          && fingerprint.payloadLength == if local.payloadLength.Some? then local.payloadLength.value else 0)
  }

  lemma PairNamesOneFile(a: string, b: string)
    ensures NameOneFile([a, b]) <==> Same(a, b)
  {
    assert [a, b][0] == a && [a, b][1] == b;
  }

  lemma FourNameOneFile(a: string, b: string, c: string, e: string)
    ensures NameOneFile([a, b, c, e]) <==> Same(a, b) && Same(a, c) && Same(e, b)
  {
    var hashes := [a, b, c, e];
    assert hashes[0] == a && hashes[1] == b && hashes[2] == c && hashes[3] == e;
  }

  lemma NotBlankWhenSame(s: Sha, t: string)
    requires Same(s, t)
    ensures !Blank(t)
  {
    assert FoldCharacter(s[0]) == Folded(s)[0] == Folded(t)[0] == FoldCharacter(t[0]);
    assert s[0] in s && t[0] in t;
  }

  /** The checks of a product's provenance pass exactly when all records agree. That the recorded
      hashes are not blank follows. */
  lemma ProvenanceMeaning(d: Installation, product: Product, profile: string, fingerprint: Fingerprint, installed: InstallState)
    ensures d.ProvenanceIsValid(product, profile, fingerprint, installed) <==> RecordsAgree(d, product, profile, fingerprint, installed)
  {
    hide Blank, Same, NameOneFile;
    if product.executable.Some? {
      PairNamesOneFile(product.executable.value.sha, fingerprint.executable);
      if Same(product.executable.value.sha, fingerprint.executable) {
        NotBlankWhenSame(product.executable.value.sha, fingerprint.executable);
      }
    }
    if product.local.Some? {
      var local := product.local.value;
      PairNamesOneFile(if local.payloadSha.Some? then local.payloadSha.value else "", fingerprint.payloadSha);
      if d.dol.Some? {
        FourNameOneFile(d.dol.value.sha, fingerprint.dol, installed.dol, local.dol);
        if Same(d.dol.value.sha, fingerprint.dol) { NotBlankWhenSame(d.dol.value.sha, fingerprint.dol); }
      }
      if d.rel.Some? {
        FourNameOneFile(d.rel.value.sha, fingerprint.rel, installed.rel, local.rel);
        if Same(d.rel.value.sha, fingerprint.rel) { NotBlankWhenSame(d.rel.value.sha, fingerprint.rel); }
      }
    }
  }

  /** The toolkit has an identity exactly when it is there and its document records both of its
      fingerprints; no other is ever derived. */
  lemma ToolkitMeaning(d: Installation)
    ensures d.ResolveToolkitFingerprint() != "" <==>
            && d.hasToolkit && d.toolkitState.Some? && d.toolkitState.value.schema == 2
            && d.toolkitState.value.toolkit != "" && d.toolkitState.value.package != ""
    ensures d.ResolveToolkitFingerprint() != "" ==> d.ResolveToolkitFingerprint() == d.toolkitState.value.toolkit
  {
  }

  /** The payload mode on record: the product's own, or the state document's where the product has
      none. Any other text is no mode. */
  lemma PayloadModeMeaning(d: Installation)
    ensures var recorded := if HasFingerprint(d.retro) && d.retro.fingerprint.value.payloadMode != ""
                            then d.retro.fingerprint.value.payloadMode
                            else if d.state.Some? then d.state.value.payloadMode else "";
            && (d.ResolvePayloadMode().Online? <==> recorded == "downloaded")
            && (d.ResolvePayloadMode().Skipped? <==> recorded == "skipped")
  {
  }

  // ---- The base product ----

  /** The product can be compared with the toolkit at all. */
  ghost predicate BaseIsReadable(d: Installation, toolkit: string) {
    HasExecutable(d.base) && HasTools(d, toolkit) && HasState(d) && HasFingerprint(d.base)
  }

  ghost predicate BaseRecordsAgree(d: Installation) {
    && d.base.fingerprint.Some? && d.state.Some?
    && RecordsAgree(d, d.base, "base", d.base.fingerprint.value, d.state.value)
  }

  /** The copied runtime assets are those of this toolkit. */
  ghost predicate AssetsAreCopied(d: Installation, product: Product, toolkit: string) {
    && d.toolkitState.Some? && d.toolkitState.value.schema == 2 && d.toolkitState.value.toolkit == toolkit
    && !Blank(d.toolkitState.value.runtimeAssets)
    && product.assets.Some? && product.assets.value == d.toolkitState.value.runtimeAssets
  }

  /** When the base product has which status. It has no other. */
  lemma BaseStatuses(d: Installation, toolkit: string)
    ensures var status := d.CheckBaseCore(toolkit);
            && (status.Broken? <==> !HasExecutable(d.base))
            && (status.ToolkitChanged? <==> BaseIsReadable(d, toolkit) && d.base.fingerprint.value.toolkit != toolkit)
            && (status.Current? <==>
                  BaseIsReadable(d, toolkit) && d.base.fingerprint.value.toolkit == toolkit && BaseRecordsAgree(d))
            && (status.Blocked? <==>
                  && HasExecutable(d.base)
                  && (BaseIsReadable(d, toolkit) ==> d.base.fingerprint.value.toolkit == toolkit && !BaseRecordsAgree(d)))
            && (status.Broken? || status.ToolkitChanged? || status.Current? || status.Blocked?)
    ensures var status := d.CheckBase(toolkit);
            && (status.Current? <==> d.CheckBaseCore(toolkit).Current? && AssetsAreCopied(d, d.base, toolkit))
            && (status.Broken? <==>
                  || !HasExecutable(d.base)
                  || (d.CheckBaseCore(toolkit).Current? && !AssetsAreCopied(d, d.base, toolkit)))
            && (!status.Current? && !status.Broken? ==> status == d.CheckBaseCore(toolkit))
  {
    hide Same, NameOneFile, RecordsAgree, Installation.ProvenanceIsValid;
    if d.base.fingerprint.Some? && d.state.Some? {
      ProvenanceMeaning(d, d.base, BASE_PROFILE, d.base.fingerprint.value, d.state.value);
    }
  }

  // ---- The Retro Rewind product ----

  ghost predicate IsRecorded(d: Installation) { HasState(d) && d.state.value.retroInstalled }

  /** There is a product, with a fingerprint, and the tools to rebuild it. */
  ghost predicate RetroIsReadable(d: Installation, toolkit: string) {
    d.retro.executable.Some? && HasTools(d, toolkit) && HasFingerprint(d.retro)
  }

  /** This toolkit built the product, and every record of what it was built from agrees. */
  ghost predicate IsSound(d: Installation, toolkit: string) {
    && RetroIsReadable(d, toolkit) && HasState(d)
    && var fingerprint := d.retro.fingerprint.value;
    && fingerprint.toolkit == toolkit
    && RecordsAgree(d, d.retro, "retro-rewind", fingerprint, d.state.value)
    && !Blank(fingerprint.codePul) && NameOneFile([fingerprint.codePul, d.state.value.codePul])
    && !Blank(fingerprint.compileInputs) && NameOneFile([fingerprint.compileInputs, d.state.value.compileInputs])
  }

  ghost predicate SameCodePul(d: Installation, canonical: Option<CompileInputs>)
    requires d.retro.fingerprint.Some?
  {
    canonical.Some? ==> NameOneFile([canonical.value.codePul, d.retro.fingerprint.value.codePul])
  }

  ghost predicate SameInputs(d: Installation, canonical: Option<CompileInputs>)
    requires d.retro.fingerprint.Some?
  {
    canonical.Some? ==> NameOneFile([canonical.value.compileInputs, d.retro.fingerprint.value.compileInputs])
  }

  /** The product has a payload built in that both records describe. */
  ghost predicate PayloadIsRecorded(d: Installation)
    requires d.retro.fingerprint.Some? && d.state.Some?
  {
    && !Blank(d.retro.fingerprint.value.payloadSha) && d.retro.fingerprint.value.payloadLength > 0
    && !Blank(d.state.value.payloadSha) && d.state.value.payloadLength > 0
  }

  ghost predicate IsDownloaded(d: Installation)
    requires d.retro.fingerprint.Some?
  {
    d.retro.fingerprint.value.payloadMode == "downloaded"
  }

  /** What is known of the cached payload, or else what the disk tells, is the built-in payload. */
  ghost predicate CacheIsBuiltIn(d: Installation, observed: Option<bool>)
    requires d.retro.fingerprint.Some?
  {
    match observed
    case Some(matches) => matches
    case None =>
      && d.payloadCache.Some? && d.payloadCache.value.length == d.retro.fingerprint.value.payloadLength
      && NameOneFile([d.payloadCache.value.sha, d.retro.fingerprint.value.payloadSha])
  }

  /** The checks of the recorded compile inputs. */
  lemma InputProvenanceMeaning(d: Installation, fingerprint: Fingerprint, installed: InstallState)
    ensures d.InputProvenanceIsValid(fingerprint, installed) <==>
            && !Blank(fingerprint.codePul) && NameOneFile([fingerprint.codePul, installed.codePul])
            && !Blank(fingerprint.compileInputs) && NameOneFile([fingerprint.compileInputs, installed.compileInputs])
  {
    hide NameOneFile;
    PairNamesOneFile(fingerprint.codePul, installed.codePul);
    PairNamesOneFile(fingerprint.compileInputs, installed.compileInputs);
    if Same(fingerprint.codePul, installed.codePul) { BlankWhenSame(fingerprint.codePul, installed.codePul); }
    if Same(fingerprint.compileInputs, installed.compileInputs) {
      BlankWhenSame(fingerprint.compileInputs, installed.compileInputs);
    }
  }

  lemma BlankWhenSame(s: string, t: string)
    requires Same(s, t)
    ensures Blank(s) <==> Blank(t)
  {
    assert |s| == |Folded(s)| == |Folded(t)| == |t|;
    forall i | 0 <= i < |s|
      ensures IsWhiteSpace(s[i]) <==> IsWhiteSpace(t[i])
    {
      assert FoldCharacter(s[i]) == Folded(s)[i] == Folded(t)[i] == FoldCharacter(t[i]);
    }
  }

  /** When the Retro Rewind product has which status. It has no other. */
  lemma RetroStatuses(d: Installation, toolkit: string, canonical: Option<CompileInputs>, observed: Option<bool>)
    ensures var status := d.CheckRetroCore(toolkit, canonical, observed);
            && (status.Absent? <==> d.retro.executable.None? && !IsRecorded(d))
            && (status.Broken? <==> d.retro.executable.None? && IsRecorded(d) && HasTools(d, toolkit))
            && (status.ToolkitChanged? <==> RetroIsReadable(d, toolkit) && d.retro.fingerprint.value.toolkit != toolkit)
            && (status.CodePulChanged? <==> IsSound(d, toolkit) && !SameCodePul(d, canonical))
            && (status.CompileInputsChanged? <==>
                  IsSound(d, toolkit) && SameCodePul(d, canonical) && !SameInputs(d, canonical))
            && (status.PayloadChanged? <==>
                  && IsSound(d, toolkit) && SameCodePul(d, canonical) && SameInputs(d, canonical)
                  && IsDownloaded(d) && PayloadIsRecorded(d) && !CacheIsBuiltIn(d, observed))
            && (status.Current? <==>
                  && IsSound(d, toolkit) && SameCodePul(d, canonical) && SameInputs(d, canonical)
                  && (IsDownloaded(d) ==> PayloadIsRecorded(d) && CacheIsBuiltIn(d, observed)))
            && (status.Blocked? <==> RetroIsBlocked(d, toolkit, canonical))
            && !status.InputsMissing?
  {
    hide Same, Blank, NameOneFile, HasTools, Installation.HasUsableToolkit, IsSound, SameCodePul, SameInputs, CacheIsBuiltIn,
      Installation.ProvenanceIsValid, Installation.InputProvenanceIsValid, Installation.CheckPayloadCache;
    ToolsMeaning(d, toolkit);
    SoundMeaning(d, toolkit);
    if d.retro.fingerprint.Some? {
      CanonicalMeaning(d, canonical);
      if d.state.Some? { CacheMeaning(d, observed); }
    }
  }

  lemma SoundMeaning(d: Installation, toolkit: string)
    ensures IsSound(d, toolkit) <==>
            && RetroIsReadable(d, toolkit) && HasState(d) && d.retro.fingerprint.value.toolkit == toolkit
            && d.ProvenanceIsValid(d.retro, RETRO_PROFILE, d.retro.fingerprint.value, d.state.value)
            && d.InputProvenanceIsValid(d.retro.fingerprint.value, d.state.value)
  {
    hide Same, Blank, NameOneFile, HasTools, RecordsAgree, Installation.ProvenanceIsValid, Installation.InputProvenanceIsValid;
    if d.retro.fingerprint.Some? && d.state.Some? {
      ProvenanceMeaning(d, d.retro, RETRO_PROFILE, d.retro.fingerprint.value, d.state.value);
      InputProvenanceMeaning(d, d.retro.fingerprint.value, d.state.value);
    }
  }

  lemma CanonicalMeaning(d: Installation, canonical: Option<CompileInputs>)
    requires d.retro.fingerprint.Some?
    ensures var fingerprint := d.retro.fingerprint.value;
            && (SameCodePul(d, canonical) <==> (canonical.Some? ==> Same(canonical.value.codePul, fingerprint.codePul)))
            && (SameInputs(d, canonical) <==>
                  (canonical.Some? ==> Same(canonical.value.compileInputs, fingerprint.compileInputs)))
  {
    hide Same, NameOneFile;
    if canonical.Some? {
      PairNamesOneFile(canonical.value.codePul, d.retro.fingerprint.value.codePul);
      PairNamesOneFile(canonical.value.compileInputs, d.retro.fingerprint.value.compileInputs);
    }
  }

  lemma CacheMeaning(d: Installation, observed: Option<bool>)
    requires d.retro.fingerprint.Some? && d.state.Some?
    ensures d.CheckPayloadCache(d.retro.fingerprint.value, d.state.value, observed)
            == if !PayloadIsRecorded(d) then Blocked else if CacheIsBuiltIn(d, observed) then Current else PayloadChanged
  {
    hide Same, Blank, NameOneFile;
    if d.payloadCache.Some? { PairNamesOneFile(d.payloadCache.value.sha, d.retro.fingerprint.value.payloadSha); }
  }

  /** Something that only a repair can settle: no tools, no readable records, records that disagree,
      or a built-in payload that they do not describe. */
  ghost predicate RetroIsBlocked(d: Installation, toolkit: string, canonical: Option<CompileInputs>) {
    if !HasTools(d, toolkit) then d.retro.executable.Some? || IsRecorded(d)
    else
      && d.retro.executable.Some?
      && (HasFingerprint(d.retro) ==>
            && d.retro.fingerprint.value.toolkit == toolkit
            && (IsSound(d, toolkit) ==>
                  && SameCodePul(d, canonical) && SameInputs(d, canonical)
                  && IsDownloaded(d) && !PayloadIsRecorded(d)))
  }

  lemma ToolsMeaning(d: Installation, toolkit: string)
    ensures d.HasUsableToolkit(toolkit) <==> HasTools(d, toolkit)
  {
  }

  /** The statuses with the copied runtime assets taken in. */
  lemma RetroStatusesWithAssets(d: Installation, toolkit: string, canonical: Option<CompileInputs>, observed: Option<bool>)
    ensures var core := d.CheckRetroCore(toolkit, canonical, observed); var status := d.CheckRetro(toolkit, canonical, observed);
            && (status.Current? <==> core.Current? && AssetsAreCopied(d, d.retro, toolkit))
            && (status.Broken? <==> core.Broken? || (core.Current? && !AssetsAreCopied(d, d.retro, toolkit)))
            && (!status.Current? && !status.Broken? ==> status == core)
  {
    hide Blank, Installation.CheckRetroCore;
  }

  // ---- One change at a time ----

  /** What inspection says of a product that was current when the canonical compile inputs change. */
  lemma ChangedInputs(d: Installation, toolkit: string, canonical: CompileInputs, other: CompileInputs, observed: Option<bool>)
    requires d.CheckRetroCore(toolkit, Some(canonical), observed).Current?
    ensures d.CheckRetroCore(toolkit, Some(other), observed)
            == if !Same(other.codePul, canonical.codePul) then CodePulChanged
               else if !Same(other.compileInputs, canonical.compileInputs) then CompileInputsChanged
               else Current
  {
    hide Same, Blank, Installation.ProvenanceIsValid, Installation.InputProvenanceIsValid, Installation.HasUsableToolkit;
    SameAsTheSame(canonical.codePul, d.retro.fingerprint.value.codePul, other.codePul);
    SameAsTheSame(canonical.compileInputs, d.retro.fingerprint.value.compileInputs, other.compileInputs);
  }

  lemma SameAsTheSame(s: string, t: string, other: string)
    requires Same(s, t)
    ensures Same(other, s) <==> Same(other, t)
  {
  }

  /** The same for another toolkit, and for tools that are gone. */
  lemma ChangedToolkit(d: Installation, toolkit: string, other: string, canonical: Option<CompileInputs>, observed: Option<bool>)
    requires d.CheckRetroCore(toolkit, canonical, observed).Current? && other != toolkit
    ensures d.CheckRetroCore(other, canonical, observed) == if Blank(other) then Blocked else ToolkitChanged
    ensures d.(hasToolkit := false).CheckRetroCore(toolkit, canonical, observed) == Blocked
  {
    hide Blank, Same, Installation.ProvenanceIsValid, Installation.InputProvenanceIsValid;
  }

  /** The same for a file that is gone: the state document, the game's executable, the product's own,
      or the cached payload. */
  lemma LostFile(d: Installation, toolkit: string, canonical: Option<CompileInputs>, observed: Option<bool>)
    requires d.CheckRetroCore(toolkit, canonical, observed).Current?
    ensures d.(state := None).CheckRetroCore(toolkit, canonical, observed) == Blocked
    ensures d.(dol := None).CheckRetroCore(toolkit, canonical, observed) == Blocked
    ensures d.(retro := d.retro.(executable := None)).CheckRetroCore(toolkit, canonical, observed)
            == if d.state.value.retroInstalled then Broken else Absent
    ensures d.(payloadCache := None).CheckRetroCore(toolkit, canonical, None)
            == if IsDownloaded(d) then PayloadChanged else Current
  {
    hide Blank, Same, Installation.ProvenanceIsValid, Installation.InputProvenanceIsValid;
    var fingerprint, installed := d.retro.fingerprint.value, d.state.value;
    WithoutExecutable(d, fingerprint, installed);
    WithoutCache(d, fingerprint, installed);
  }

  lemma WithoutExecutable(d: Installation, fingerprint: Fingerprint, installed: InstallState)
    ensures !d.(dol := None).ProvenanceIsValid(d.retro, RETRO_PROFILE, fingerprint, installed)
  {
    hide Blank, Same;
  }

  lemma WithoutCache(d: Installation, fingerprint: Fingerprint, installed: InstallState)
    ensures d.(payloadCache := None).ProvenanceIsValid(d.retro, RETRO_PROFILE, fingerprint, installed)
            <==> d.ProvenanceIsValid(d.retro, RETRO_PROFILE, fingerprint, installed)
    ensures d.(payloadCache := None).InputProvenanceIsValid(fingerprint, installed)
            <==> d.InputProvenanceIsValid(fingerprint, installed)
  {
    hide Blank, Same;
  }
}
