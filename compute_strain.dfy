/** The command-line side of the ComputeStrain program: the parsers for the
    --size and --smoothing values, the option loop of main, the rule that picks
    the target image, the resizing of the output extent, the transform file
    type dispatch and the output-type switch. */
module ComputeStrain {
  import opened Wrappers
  import opened CNumbers

  // --------------------------------------------------------- command name

  predicate IsSeparator(c: char)
  {
    c == '/' || c == '\\'
  }

  /** The command name the usage text prints: argv[0] from just after its
      last '/' or '\\'. */
  method CommandName(command: string) returns (name: string)
    ensures |name| <= |command| && name == command[|command| - |name|..]
    ensures forall k :: 0 <= k < |name| ==> !IsSeparator(name[k])
    ensures |name| == |command| || IsSeparator(command[|command| - |name| - 1])
  {
    var cp := |command|;
    while cp != 0 && !IsSeparator(command[cp - 1])
      invariant 0 <= cp <= |command|
      invariant forall k :: cp <= k < |command| ==> !IsSeparator(command[k])
    {
      cp := cp - 1;
    }
    name := command[cp..];
  }

  // ------------------------------------------------------ value parsers

  datatype ParseError =
    | MissingValue(option: string)
    | InvalidDimensions(option: string, value: string)
    | InvalidValues(option: string, value: string)
    | MissingFile(flag: string)
    | UnrecognizedOption(arg: string)
    | NoOutputFile
    | NoTargetFile

  /** What `dimensions` reads from a --size value: up to three strtoul
      fields separated by 'x', each cast to int.  After two fields the end of
      the value leaves the depth -1; after three it must be the end. */
  function DimensionsOf(arg: string): (g: Option<seq<int>>)
    ensures g.Some? ==> |g.value| == 3
  {
    var f0 := Strtoul(arg, 0);
    if At(arg, f0.1) != 'x' then None
    else
      var f1 := Strtoul(arg, f0.1 + 1);
      if At(arg, f1.1) == 'x' then
        var f2 := Strtoul(arg, f1.1 + 1);
        if At(arg, f2.1) == '\0' then Some([ToInt(f0.0), ToInt(f1.0), ToInt(f2.0)]) else None
      else if At(arg, f1.1) == '\0' then Some([ToInt(f0.0), ToInt(f1.0), -1])
      else None
  }

  /** What `sigmas` reads from a --smoothing value: up to three strtod
      fields separated by 'x'.  One field is used for all three axes, two
      leave the third -1. */
  function SigmasOf(arg: string): (g: Option<seq<real>>)
    ensures g.Some? ==> |g.value| == 3
  {
    var f0 := Strtod(arg, 0);
    if At(arg, f0.1) == 'x' then
      var f1 := Strtod(arg, f0.1 + 1);
      if At(arg, f1.1) == 'x' then
        var f2 := Strtod(arg, f1.1 + 1);
        if At(arg, f2.1) == '\0' then Some([f0.0, f1.0, f2.0]) else None
      else if At(arg, f1.1) == '\0' then Some([f0.0, f1.0, -1.0])
      else None
    else if At(arg, f0.1) == '\0' then Some([f0.0, f0.0, f0.0])
    else None
  }

  /** An option at args[argi - 1] is followed by a value: one that exists and
      does not begin with '-'. */
  predicate ValueFollows(args: seq<string>, argi: nat)
  {
    argi < |args| && At(args[argi], 0) != '-'
  }

  /** The outcome of `dimensions(argv, argc, argi, g)`. */
  function SizeValue(args: seq<string>, argi: nat): (r: Result<seq<int>, ParseError>)
    requires 1 <= argi <= |args|
    ensures r.Ok? ==> |r.value| == 3
    ensures r == Err(MissingValue(args[argi - 1])) <==> !ValueFollows(args, argi)
    ensures r.Ok? <==> ValueFollows(args, argi) && DimensionsOf(args[argi]).Some?
  {
    if !ValueFollows(args, argi) then Err(MissingValue(args[argi - 1]))
    else match DimensionsOf(args[argi])
      case None => Err(InvalidDimensions(args[argi - 1], args[argi]))
      case Some(g) => Ok(g)
  }

  /** The outcome of `sigmas(argv, argc, argi, g)`. */
  function SmoothingValue(args: seq<string>, argi: nat): (r: Result<seq<real>, ParseError>)
    requires 1 <= argi <= |args|
    ensures r.Ok? ==> |r.value| == 3
    ensures r == Err(MissingValue(args[argi - 1])) <==> !ValueFollows(args, argi)
    ensures r.Ok? <==> ValueFollows(args, argi) && SigmasOf(args[argi]).Some?
  {
    if !ValueFollows(args, argi) then Err(MissingValue(args[argi - 1]))
    else match SigmasOf(args[argi])
      case None => Err(InvalidValues(args[argi - 1], args[argi]))
      case Some(g) => Ok(g)
  }

  /** DimensionsOf when the value has already been split into its first
      fields. */
  lemma DimensionsOfFields(arg: string, f0: (nat, nat), f1: (nat, nat), f2: (nat, nat))
    requires f0 == Strtoul(arg, 0)
    requires At(arg, f0.1) == 'x' ==> f1 == Strtoul(arg, f0.1 + 1)
    requires At(arg, f0.1) == 'x' && At(arg, f1.1) == 'x' ==> f2 == Strtoul(arg, f1.1 + 1)
    ensures At(arg, f0.1) != 'x' ==> DimensionsOf(arg) == None
    ensures At(arg, f0.1) == 'x' && At(arg, f1.1) == '\0' ==> DimensionsOf(arg) == Some([ToInt(f0.0), ToInt(f1.0), -1])
    ensures At(arg, f0.1) == 'x' && At(arg, f1.1) == 'x' && At(arg, f2.1) == '\0'
         ==> DimensionsOf(arg) == Some([ToInt(f0.0), ToInt(f1.0), ToInt(f2.0)])
    ensures At(arg, f0.1) == 'x' && At(arg, f1.1) != 'x' && At(arg, f1.1) != '\0' ==> DimensionsOf(arg) == None
    ensures At(arg, f0.1) == 'x' && At(arg, f1.1) == 'x' && At(arg, f2.1) != '\0' ==> DimensionsOf(arg) == None
  {
  }

  /** Parse the --size value args[argi] into g, field by field. */
  method Dimensions(args: seq<string>, argi: nat, g: array<int>) returns (err: Option<ParseError>)
    requires 1 <= argi <= |args| && g.Length == 3
    modifies g
    ensures err.None? <==> SizeValue(args, argi).Ok?
    ensures err.None? ==> g[..] == SizeValue(args, argi).value
    ensures err.Some? ==> SizeValue(args, argi) == Err(err.value)
  {
    var option := args[argi - 1];
    if argi == |args| || At(args[argi], 0) == '-' {
      return Some(MissingValue(option));
    }
    var arg := args[argi];
    ghost var f0 := Strtoul(arg, 0);
    ghost var f1 := if At(arg, f0.1) == 'x' then Strtoul(arg, f0.1 + 1) else (0, 0);
    ghost var f2 := if At(arg, f0.1) == 'x' && At(arg, f1.1) == 'x' then Strtoul(arg, f1.1 + 1) else (0, 0);
    DimensionsOfFields(arg, f0, f1, f2);
    var p := 0;
    var i := 0;
    while i < 3
      invariant 0 <= i <= 3 && p <= |arg|
      invariant i == 0 ==> p == 0
      invariant i >= 1 ==> At(arg, f0.1) == 'x' && g[0] == ToInt(f0.0)
      invariant i == 1 ==> p == f0.1 + 1
      invariant i >= 2 ==> At(arg, f1.1) == 'x' && g[1] == ToInt(f1.0)
      invariant i == 2 ==> p == f1.1 + 1
      invariant i == 3 ==> At(arg, f2.1) == '\0' && g[2] == ToInt(f2.0)
    {
      var f := Strtoul(arg, p);
      g[i] := ToInt(f.0);
      p := f.1;
      if i < 2 && At(arg, p) == 'x' {
        p := p + 1;
      } else if i == 1 && At(arg, p) == '\0' {
        g[2] := -1;
        assert g[..] == [g[0], g[1], g[2]];
        return None;
      } else if !(i == 2 && At(arg, p) == '\0') {
        return Some(InvalidDimensions(option, arg));
      }
      i := i + 1;
    }
    assert g[..] == [g[0], g[1], g[2]];
    err := None;
  }

  /** SigmasOf when the value has already been split into its first fields. */
  lemma SigmasOfFields(arg: string, f0: (real, nat), f1: (real, nat), f2: (real, nat))
    requires f0 == Strtod(arg, 0)
    requires At(arg, f0.1) == 'x' ==> f1 == Strtod(arg, f0.1 + 1)
    requires At(arg, f0.1) == 'x' && At(arg, f1.1) == 'x' ==> f2 == Strtod(arg, f1.1 + 1)
    ensures At(arg, f0.1) == '\0' ==> SigmasOf(arg) == Some([f0.0, f0.0, f0.0])
    ensures At(arg, f0.1) == 'x' && At(arg, f1.1) == '\0' ==> SigmasOf(arg) == Some([f0.0, f1.0, -1.0])
    ensures At(arg, f0.1) == 'x' && At(arg, f1.1) == 'x' && At(arg, f2.1) == '\0'
         ==> SigmasOf(arg) == Some([f0.0, f1.0, f2.0])
    ensures At(arg, f0.1) != 'x' && At(arg, f0.1) != '\0' ==> SigmasOf(arg) == None
    ensures At(arg, f0.1) == 'x' && At(arg, f1.1) != 'x' && At(arg, f1.1) != '\0' ==> SigmasOf(arg) == None
    ensures At(arg, f0.1) == 'x' && At(arg, f1.1) == 'x' && At(arg, f2.1) != '\0' ==> SigmasOf(arg) == None
  {
  }

  /** Parse the --smoothing value args[argi] into g, field by field. */
  method Sigmas(args: seq<string>, argi: nat, g: array<real>) returns (err: Option<ParseError>)
    requires 1 <= argi <= |args| && g.Length == 3
    modifies g
    ensures err.None? <==> SmoothingValue(args, argi).Ok?
    ensures err.None? ==> g[..] == SmoothingValue(args, argi).value
    ensures err.Some? ==> SmoothingValue(args, argi) == Err(err.value)
  {
    var option := args[argi - 1];
    if argi == |args| || At(args[argi], 0) == '-' {
      return Some(MissingValue(option));
    }
    var arg := args[argi];
    ghost var f0 := Strtod(arg, 0);
    ghost var f1 := if At(arg, f0.1) == 'x' then Strtod(arg, f0.1 + 1) else (0.0, 0);
    ghost var f2 := if At(arg, f0.1) == 'x' && At(arg, f1.1) == 'x' then Strtod(arg, f1.1 + 1) else (0.0, 0);
    SigmasOfFields(arg, f0, f1, f2);
    var p := 0;
    var i := 0;
    while i < 3
      invariant 0 <= i <= 3 && p <= |arg|
      invariant i == 0 ==> p == 0
      invariant i >= 1 ==> At(arg, f0.1) == 'x' && g[0] == f0.0
      invariant i == 1 ==> p == f0.1 + 1
      invariant i >= 2 ==> At(arg, f1.1) == 'x' && g[1] == f1.0
      invariant i == 2 ==> p == f1.1 + 1
      invariant i == 3 ==> At(arg, f2.1) == '\0' && g[2] == f2.0
    {
      var f := Strtod(arg, p);
      g[i] := f.0;
      p := f.1;
      if i < 2 && At(arg, p) == 'x' {
        p := p + 1;
      } else if i == 0 && At(arg, p) == '\0' {
        g[1] := g[0];
        g[2] := g[0];
        assert g[..] == [g[0], g[1], g[2]];
        return None;
      } else if i == 1 && At(arg, p) == '\0' {
        g[2] := -1.0;
        assert g[..] == [g[0], g[1], g[2]];
        return None;
      } else if !(i == 2 && At(arg, p) == '\0') {
        return Some(InvalidValues(option, arg));
      }
      i := i + 1;
    }
    assert g[..] == [g[0], g[1], g[2]];
    err := None;
  }

  /** Two runs of digits "WxH" read as width W and height H, each saturated
      at ULONG_MAX and cast to int, with depth -1. */
  lemma DimensionsOfTwo(dw: string, dh: string)
    requires AllDigits(dw) && AllDigits(dh)
    ensures DimensionsOf(dw + "x" + dh)
         == Some([ToInt(Saturate(DecimalValue(dw))), ToInt(Saturate(DecimalValue(dh))), -1])
  {
    var a := dw + "x" + dh;
    assert Strtoul(a, 0) == (Saturate(DecimalValue(dw)), |dw|) by {
      assert a == [] + dw + ("x" + dh);
      StrtoulReadsDigits([], dw, "x" + dh);
    }
    assert Strtoul(a, |dw| + 1) == (Saturate(DecimalValue(dh)), |a|) by {
      assert a == (dw + "x") + dh + [];
      StrtoulReadsDigits(dw + "x", dh, []);
    }
  }

  /** Three runs of digits "WxHxD" read as width, height and depth. */
  lemma DimensionsOfThree(dw: string, dh: string, dd: string)
    requires AllDigits(dw) && AllDigits(dh) && AllDigits(dd)
    ensures DimensionsOf(dw + "x" + dh + "x" + dd)
         == Some([ToInt(Saturate(DecimalValue(dw))), ToInt(Saturate(DecimalValue(dh))), ToInt(Saturate(DecimalValue(dd)))])
  {
    var a := dw + "x" + dh + "x" + dd;
    assert Strtoul(a, 0) == (Saturate(DecimalValue(dw)), |dw|) by {
      assert a == [] + dw + ("x" + dh + "x" + dd);
      StrtoulReadsDigits([], dw, "x" + dh + "x" + dd);
    }
    assert Strtoul(a, |dw| + 1) == (Saturate(DecimalValue(dh)), |dw| + 1 + |dh|) by {
      assert a == (dw + "x") + dh + ("x" + dd);
      StrtoulReadsDigits(dw + "x", dh, "x" + dd);
    }
    assert Strtoul(a, |dw| + 1 + |dh| + 1) == (Saturate(DecimalValue(dd)), |a|) by {
      assert a == (dw + "x" + dh + "x") + dd + [];
      StrtoulReadsDigits(dw + "x" + dh + "x", dd, []);
    }
  }

  /** A single run of digits is not a valid --size value. */
  lemma DimensionsOfOne(d: string)
    requires AllDigits(d)
    ensures DimensionsOf(d) == None
  {
    assert d == [] + d + [];
    DigitsEndOf([], d, []);
  }

  /** A value that ends in a character which is neither a digit nor 'x' is
      rejected, whatever comes before it. */
  lemma DimensionsOfTrailing(s: string, c: char)
    requires forall k :: 0 <= k < |s| ==> s[k] != '\0'
    requires !IsDigit(c) && c != 'x' && c != '\0'
    ensures DimensionsOf(s + [c]) == None
  {
    var a := s + [c];
    assert forall p :: 0 <= p < |a| ==> At(a, p) != '\0';
    assert a[|a| - 1] == c;
    var f0 := Strtoul(a, 0);
    if At(a, f0.1) == 'x' {
      var f1 := Strtoul(a, f0.1 + 1);
      assert f1.1 == |a| ==> f0.1 + 1 == |a| || DigitAt(a, |a| - 1);
      if At(a, f1.1) == 'x' {
        var f2 := Strtoul(a, f1.1 + 1);
        assert f2.1 == |a| ==> f1.1 + 1 == |a| || DigitAt(a, |a| - 1);
      }
    }
  }

  /** A single --smoothing value applies to all three axes. */
  lemma SigmasOfOne(d: string)
    requires AllDigits(d)
    ensures SigmasOf(d) == Some([DecimalValue(d) as real, DecimalValue(d) as real, DecimalValue(d) as real])
  {
    assert d == [] + d + [];
    StrtodReadsDigits([], d, []);
  }

  /** Two --smoothing values leave the third -1. */
  lemma SigmasOfTwo(dx: string, dy: string)
    requires AllDigits(dx) && AllDigits(dy)
    ensures SigmasOf(dx + "x" + dy) == Some([DecimalValue(dx) as real, DecimalValue(dy) as real, -1.0])
  {
    var a := dx + "x" + dy;
    assert Strtod(a, 0) == (DecimalValue(dx) as real, |dx|) by {
      assert a == [] + dx + ("x" + dy);
      StrtodReadsDigits([], dx, "x" + dy);
    }
    assert Strtod(a, |dx| + 1) == (DecimalValue(dy) as real, |a|) by {
      assert a == (dx + "x") + dy + [];
      StrtodReadsDigits(dx + "x", dy, []);
    }
  }

  // ------------------------------------------------- transform file types

  /** Index of the last '.' in s[..n], or 0 when there is none. */
  function LastDot(s: string, n: nat): (k: nat)
    requires n <= |s|
    ensures k <= n && (n > 0 ==> k < n)
    ensures k == 0 || s[k] == '.'
    ensures forall j :: k < j < n ==> s[j] != '.'
  {
    if n == 0 then 0 else if s[n - 1] == '.' then n - 1 else LastDot(s, n - 1)
  }

  /** One backward scan of `strain_read_transform`: step back from n until a
      '.' is found or the start is reached. */
  method ScanBack(file: string, n0: nat) returns (n: nat)
    requires n0 <= |file|
    ensures n == LastDot(file, n0)
  {
    n := n0;
    while n != 0
      invariant n <= n0 && LastDot(file, n) == LastDot(file, n0)
    {
      n := n - 1;
      if file[n] == '.' {
        return;
      }
    }
  }

  /** The extension of a transform file: from its last '.', or from the '.'
      before that when the last one starts ".gz". */
  function Extension(file: string): (ext: string)
    ensures |ext| <= |file| && ext == file[|file| - |ext|..]
  {
    var n := LastDot(file, |file|);
    var m := if file[n..] == ".gz" then LastDot(file, n) else n;
    file[m..]
  }

  method ExtensionOf(file: string) returns (ext: string)
    ensures ext == Extension(file)
  {
    var n := ScanBack(file, |file|);
    if file[n..] == ".gz" {
      n := ScanBack(file, n);
    }
    ext := file[n..];
  }

  predicate NoDot(w: string)
  {
    forall k :: 0 <= k < |w| ==> w[k] != '.'
  }

  /** A suffix ".w", with no further '.' and other than ".gz", is the
      extension of any name that ends in it. */
  lemma ExtensionOfPlain(base: string, ext: string)
    requires |ext| >= 1 && ext[0] == '.' && NoDot(ext[1..]) && ext != ".gz"
    ensures Extension(base + ext) == ext
  {
    var f := base + ext;
    assert f[|base|] == '.';
    assert forall j :: |base| < j < |f| ==> f[j] == ext[1..][j - |base| - 1];
    assert LastDot(f, |f|) == |base|;
    assert f[|base|..] == ext;
  }

  /** A suffix ".w.gz", with no '.' in w, is the extension of any name that
      ends in it. */
  lemma ExtensionOfCompressed(base: string, ext: string)
    requires |ext| >= 4 && ext[0] == '.' && NoDot(ext[1..|ext| - 3]) && ext[|ext| - 3..] == ".gz"
    ensures Extension(base + ext) == ext
  {
    var f := base + ext;
    var n := |f| - 3;
    assert f[n..] == ext[|ext| - 3..];
    assert f[n] == '.';
    assert LastDot(f, |f|) == n;
    assert f[|base|] == '.';
    assert forall j :: |base| < j < n ==> f[j] == ext[1..|ext| - 3][j - |base| - 1];
    assert LastDot(f, n) == |base|;
    assert f[|base|..] == ext;
  }

  /** The three readers of `strain_read_transform`. */
  datatype TransformReader = MniTransform | ItkTransform | NiftiDisplacement

  /** The reader chosen for an extension, or None for an unrecognized one. */
  function ReaderFor(ext: string): Option<TransformReader>
  {
    if ext == ".xfm" then Some(MniTransform)
    else if ext == ".txt" || ext == ".tfm" then Some(ItkTransform)
    else if ext == ".nii" || ext == ".nii.gz" then Some(NiftiDisplacement)
    else None
  }

  /** The file type dispatch of `strain_read_transform`: find the extension,
      then the reader for it. */
  method TransformReaderOf(file: string) returns (reader: Option<TransformReader>)
    ensures reader == ReaderFor(Extension(file))
  {
    var ext := ExtensionOf(file);
    if ext == ".xfm" {
      reader := Some(MniTransform);
    } else if ext == ".txt" || ext == ".tfm" {
      reader := Some(ItkTransform);
    } else if ext == ".nii" || ext == ".nii.gz" {
      reader := Some(NiftiDisplacement);
    } else {
      reader := None;
    }
  }

  /** ".xfm" files go to the MNI transform reader, whatever their base name. */
  lemma XfmSelectsMniReader(base: string)
    ensures ReaderFor(Extension(base + ".xfm")) == Some(MniTransform)
  {
    ExtensionOfPlain(base, ".xfm");
  }

  /** ".txt" files go to the ITK transform reader. */
  lemma TxtSelectsItkReader(base: string)
    ensures ReaderFor(Extension(base + ".txt")) == Some(ItkTransform)
  {
    ExtensionOfPlain(base, ".txt");
  }

  /** ".tfm" files go to the ITK transform reader too. */
  lemma TfmSelectsItkReader(base: string)
    ensures ReaderFor(Extension(base + ".tfm")) == Some(ItkTransform)
  {
    ExtensionOfPlain(base, ".tfm");
  }

  /** ".nii" files are read as displacement fields. */
  lemma NiiSelectsDisplacementReader(base: string)
    ensures ReaderFor(Extension(base + ".nii")) == Some(NiftiDisplacement)
  {
    ExtensionOfPlain(base, ".nii");
  }

  /** Compressed ".nii.gz" files are read as displacement fields too. */
  lemma NiiGzSelectsDisplacementReader(base: string)
    ensures ReaderFor(Extension(base + ".nii.gz")) == Some(NiftiDisplacement)
  {
    ExtensionOfCompressed(base, ".nii.gz");
  }

  /** The transform files are read in order; the first whose extension is
      not recognized stops the program. On success each file is paired with
      its reader and whether it is inverted. */
  method ReadTransforms(files: seq<string>, invert: seq<int>) returns (r: Result<seq<(TransformReader, bool)>, string>)
    requires |files| == |invert|
    ensures r.Ok? <==> forall k :: 0 <= k < |files| ==> ReaderFor(Extension(files[k])).Some?
    ensures r.Ok? ==> |r.value| == |files|
    ensures r.Ok? ==> forall k :: 0 <= k < |files| ==> r.value[k] == (ReaderFor(Extension(files[k])).value, invert[k] != 0)
    ensures r.Err? ==> exists k :: 0 <= k < |files| && ReaderFor(Extension(files[k])).None? && r.error == Extension(files[k])
                         && forall j :: 0 <= j < k ==> ReaderFor(Extension(files[j])).Some?
  {
    var read := [];
    var i := 0;
    while i < |files|
      invariant 0 <= i <= |files| && |read| == i
      invariant forall k :: 0 <= k < i ==> ReaderFor(Extension(files[k])).Some?
      invariant forall k :: 0 <= k < i ==> read[k] == (ReaderFor(Extension(files[k])).value, invert[k] != 0)
    {
      var reader := TransformReaderOf(files[i]);
      if reader.None? {
        var ext := ExtensionOf(files[i]);
        return Err(ext);
      }
      read := read + [(reader.value, invert[i] != 0)];
      i := i + 1;
    }
    return Ok(read);
  }

  // ---------------------------------------------------------- option loop

  datatype OutputType =
    | DeformationGradient
    | GreensStrainTensor
    | PrincipalDirections
    | PrincipalComponents
    | PrincipalComponent

  /** The command-line state of main: what the option loop has read so far. */
  datatype Options = Options(
    outputType: OutputType,
    outfile: Option<string>,
    deffile: Option<string>,
    targetfile: Option<string>,
    outputSize: seq<int>,
    smoothing: seq<real>,
    transformFiles: seq<string>,
    transformInvert: seq<int>)

  /** The state before any argument is read. */
  const Defaults: Options :=
    Options(GreensStrainTensor, None, None, None, [-1, -1, -1], [-1.0, -1.0, -1.0], [], [])

  datatype Outcome =
    | Parsed(options: Options)
    | Help
    | Usage(error: ParseError)

  /** The output type an output-type flag selects. */
  function OutputTypeFlag(arg: string): Option<OutputType>
  {
    if arg == "--deformation-gradient" then Some(DeformationGradient)
    else if arg == "--greens-strain-tensor" then Some(GreensStrainTensor)
    else if arg == "--principal-directions" then Some(PrincipalDirections)
    else if arg == "--principal-components" then Some(PrincipalComponents)
    else if arg == "--principal-component" then Some(PrincipalComponent)
    else None
  }

  /** The flags followed by a file name. */
  predicate FileFlag(arg: string)
  {
    arg == "-o" || arg == "-d" || arg == "-R" || arg == "-i"
  }

  /** Record the file name that follows a file flag. */
  function WithFile(o: Options, flag: string, file: string): Options
    requires FileFlag(flag)
  {
    if flag == "-o" then o.(outfile := Some(file))
    else if flag == "-d" then o.(deffile := Some(file))
    else if flag == "-R" then o.(targetfile := Some(file))
    else o.(transformFiles := o.transformFiles + [file], transformInvert := o.transformInvert + [1])
  }

  /** The option loop of main from argument argi on, in state o. */
  function ParseFrom(args: seq<string>, argi: nat, o: Options): Outcome
    decreases |args| - argi
  {
    if argi >= |args| then Parsed(o)
    else
      var arg := args[argi];
      var next := argi + 1;
      if arg == "--help" then Help
      else if OutputTypeFlag(arg).Some? then ParseFrom(args, next, o.(outputType := OutputTypeFlag(arg).value))
      else if arg == "--size" then
        match SizeValue(args, next)
        case Err(e) => Usage(e)
        case Ok(g) => ParseFrom(args, next + 1, o.(outputSize := g))
      else if arg == "--smoothing" then
        match SmoothingValue(args, next)
        case Err(e) => Usage(e)
        case Ok(g) => ParseFrom(args, next + 1, o.(smoothing := g))
      else if FileFlag(arg) then
        if next >= |args| then Usage(MissingFile(arg))
        else ParseFrom(args, next + 1, WithFile(o, arg, args[next]))
      else if At(arg, 0) != '-' then
        ParseFrom(args, next, o.(transformFiles := o.transformFiles + [arg], transformInvert := o.transformInvert + [0]))
      else Usage(UnrecognizedOption(arg))
  }

  /** The whole command line; args[0] is the command name. */
  function ParseCommandLine(args: seq<string>): Outcome
  {
    ParseFrom(args, 1, Defaults)
  }

  /** The option loop of main, reading the arguments one by one into its
      local state. */
  method ParseArguments(args: seq<string>) returns (r: Outcome)
    ensures r == ParseCommandLine(args)
  {
    var outputType := GreensStrainTensor;
    var outfile: Option<string> := None;
    var deffile: Option<string> := None;
    var targetfile: Option<string> := None;
    var outputSize := new int[3](_ => -1);
    var smoothing := new real[3](_ => -1.0);
    var transformFiles: seq<string> := [];
    var transformInvert: seq<int> := [];
    assert outputSize[..] == [-1, -1, -1] && smoothing[..] == [-1.0, -1.0, -1.0];

    var argi := 1;
    while argi < |args|
      invariant 1 <= argi
      invariant ParseFrom(args, argi, Options(outputType, outfile, deffile, targetfile, outputSize[..],
                                              smoothing[..], transformFiles, transformInvert))
             == ParseCommandLine(args)
      decreases |args| - argi
    {
      var arg := args[argi];
      argi := argi + 1;
      if arg == "--help" {
        return Help;
      } else if arg == "--deformation-gradient" {
        outputType := DeformationGradient;
      } else if arg == "--greens-strain-tensor" {
        outputType := GreensStrainTensor;
      } else if arg == "--principal-directions" {
        outputType := PrincipalDirections;
      } else if arg == "--principal-components" {
        outputType := PrincipalComponents;
      } else if arg == "--principal-component" {
        outputType := PrincipalComponent;
      } else if arg == "--size" {
        var err := Dimensions(args, argi, outputSize);
        if err.Some? {
          return Usage(err.value);
        }
        argi := argi + 1;
      } else if arg == "--smoothing" {
        var err := Sigmas(args, argi, smoothing);
        if err.Some? {
          return Usage(err.value);
        }
        argi := argi + 1;
      } else if arg == "-o" || arg == "-d" || arg == "-R" || arg == "-i" {
        if argi >= |args| {
          return Usage(MissingFile(arg));
        }
        var file := args[argi];
        argi := argi + 1;
        if arg == "-o" {
          outfile := Some(file);
        } else if arg == "-d" {
          deffile := Some(file);
        } else if arg == "-R" {
          targetfile := Some(file);
        } else {
          transformFiles := transformFiles + [file];
          transformInvert := transformInvert + [1];
        }
      } else if At(arg, 0) != '-' {
        transformFiles := transformFiles + [arg];
        transformInvert := transformInvert + [0];
      } else {
        return Usage(UnrecognizedOption(arg));
      }
    }
    r := Parsed(Options(outputType, outfile, deffile, targetfile, outputSize[..],
                        smoothing[..], transformFiles, transformInvert));
  }

  /** After a successful parse the transform lists stay aligned, every
      inversion flag is 0 or 1, and both triples keep three entries. */
  predicate WellFormed(o: Options)
  {
    |o.transformFiles| == |o.transformInvert|
    && (forall k :: 0 <= k < |o.transformInvert| ==> o.transformInvert[k] == 0 || o.transformInvert[k] == 1)
    && |o.outputSize| == 3 && |o.smoothing| == 3
  }

  /** The option loop keeps its state well formed, only appends to the
      transform list, and every file it appends is one of the arguments it
      read. */
  lemma {:induction false} ParseFromKeepsWellFormed(args: seq<string>, argi: nat, o: Options)
    requires WellFormed(o)
    ensures ParseFrom(args, argi, o).Parsed? ==> WellFormed(ParseFrom(args, argi, o).options)
    ensures ParseFrom(args, argi, o).Parsed? ==>
      var r := ParseFrom(args, argi, o).options;
      |o.transformFiles| <= |r.transformFiles|
      && r.transformFiles[..|o.transformFiles|] == o.transformFiles
      && forall k :: |o.transformFiles| <= k < |r.transformFiles| ==> r.transformFiles[k] in args[argi..]
    decreases |args| - argi
  {
    if argi < |args| {
      ParseFromStep(args, argi, o);
      if ReadsCleanly(args, argi) {
        var j, o' := argi + OptionWidth(args[argi]), StepOptions(args, argi, o);
        ParseFromKeepsWellFormed(args, j, o');
        Appended(args, argi, j, o, o');
      }
    }
  }

  /** Bookkeeping for one step of the option loop that appended at most one
      argument of args[argi..j] to the transform list. */
  lemma Appended(args: seq<string>, argi: nat, j: nat, o: Options, o': Options)
    requires argi < j <= |args| || (argi < |args| && j == argi + 1)
    requires |o.transformFiles| <= |o'.transformFiles| <= |o.transformFiles| + 1
    requires o'.transformFiles[..|o.transformFiles|] == o.transformFiles
    requires |o'.transformFiles| > |o.transformFiles| ==> o'.transformFiles[|o.transformFiles|] in args[argi..j]
    ensures ParseFrom(args, j, o').Parsed? && WellFormed(o') ==>
      var r := ParseFrom(args, j, o').options;
      (|o'.transformFiles| <= |r.transformFiles| && r.transformFiles[..|o'.transformFiles|] == o'.transformFiles
       && forall k :: |o'.transformFiles| <= k < |r.transformFiles| ==> r.transformFiles[k] in args[j..])
      ==>
      (|o.transformFiles| <= |r.transformFiles| && r.transformFiles[..|o.transformFiles|] == o.transformFiles
       && forall k :: |o.transformFiles| <= k < |r.transformFiles| ==> r.transformFiles[k] in args[argi..])
  {
    if ParseFrom(args, j, o').Parsed? {
      var r := ParseFrom(args, j, o').options;
      var n, n' := |o.transformFiles|, |o'.transformFiles|;
      if n' <= |r.transformFiles| && r.transformFiles[..n'] == o'.transformFiles
         && forall k :: n' <= k < |r.transformFiles| ==> r.transformFiles[k] in args[j..] {
        assert r.transformFiles[..n] == r.transformFiles[..n'][..n];
        forall k | n <= k < |r.transformFiles|
          ensures r.transformFiles[k] in args[argi..]
        {
          if k < n' {
            assert r.transformFiles[k] == o'.transformFiles[k];
            assert args[argi..j] <= args[argi..];
          } else {
            assert r.transformFiles[k] in args[j..];
            assert args[j..] == args[argi..][j - argi..];
          }
        }
      }
    }
  }

  /** Arguments that do not begin with '-' are transform files, read in
      order and not inverted. */
  lemma {:induction false} BareArgumentsAreTransforms(args: seq<string>, argi: nat, o: Options)
    requires argi <= |args|
    requires forall k :: argi <= k < |args| ==> At(args[k], 0) != '-'
    ensures ParseFrom(args, argi, o)
         == Parsed(o.(transformFiles := o.transformFiles + args[argi..],
                      transformInvert := o.transformInvert + seq(|args| - argi, _ => 0)))
    decreases |args| - argi
  {
    if argi == |args| {
      assert o.transformFiles + args[argi..] == o.transformFiles;
      assert o.transformInvert + seq(|args| - argi, _ => 0) == o.transformInvert;
    } else {
      var arg := args[argi];
      assert At(arg, 0) != '-';
      assert arg != "--help" && arg != "--size" && arg != "--smoothing" && !FileFlag(arg);
      assert OutputTypeFlag(arg).None?;
      var o' := o.(transformFiles := o.transformFiles + [arg], transformInvert := o.transformInvert + [0]);
      BareArgumentsAreTransforms(args, argi + 1, o');
      assert o'.transformFiles + args[argi + 1..] == o.transformFiles + args[argi..];
      assert o'.transformInvert + seq(|args| - argi - 1, _ => 0) == o.transformInvert + seq(|args| - argi, _ => 0);
    }
  }

  /** How many arguments the option loop consumes at an option: two for
      --size, --smoothing and the file flags, which take the next argument
      as their value, and one for everything else. */
  function OptionWidth(arg: string): nat
  {
    if arg == "--size" || arg == "--smoothing" || FileFlag(arg) then 2 else 1
  }

  /** The positions from argi on that the option loop reads as options,
      as opposed to the values that follow --size, --smoothing and the file
      flags: "-o --principal-directions" names an output file and selects
      no output type. */
  function OptionPositions(args: seq<string>, argi: nat): (ps: seq<nat>)
    ensures forall k :: k in ps ==> argi <= k < |args|
    decreases |args| - argi
  {
    if argi >= |args| then [] else [argi] + OptionPositions(args, argi + OptionWidth(args[argi]))
  }

  /** An argument that begins with '-' and is none of the options. */
  predicate Unrecognized(arg: string)
  {
    At(arg, 0) == '-' && arg != "--help" && OutputTypeFlag(arg).None?
    && arg != "--size" && arg != "--smoothing" && !FileFlag(arg)
  }

  /** The option at args[p] lets the loop carry on: it is neither --help
      nor unknown, and the value it takes is present and well formed. */
  predicate ReadsCleanly(args: seq<string>, p: nat)
    requires p < |args|
  {
    args[p] != "--help" && !Unrecognized(args[p])
    && (args[p] == "--size" ==> SizeValue(args, p + 1).Ok?)
    && (args[p] == "--smoothing" ==> SmoothingValue(args, p + 1).Ok?)
    && (FileFlag(args[p]) ==> p + 1 < |args|)
  }

  /** The state after the option loop has read the clean option at
      args[argi]. */
  function StepOptions(args: seq<string>, argi: nat, o: Options): Options
    requires argi < |args| && ReadsCleanly(args, argi)
  {
    var arg := args[argi];
    if OutputTypeFlag(arg).Some? then o.(outputType := OutputTypeFlag(arg).value)
    else if arg == "--size" then o.(outputSize := SizeValue(args, argi + 1).value)
    else if arg == "--smoothing" then o.(smoothing := SmoothingValue(args, argi + 1).value)
    else if FileFlag(arg) then WithFile(o, arg, args[argi + 1])
    else o.(transformFiles := o.transformFiles + [arg], transformInvert := o.transformInvert + [0])
  }

  /** One round of the option loop: a clean option moves on past itself
      and its value, anything else ends the loop without a parse. */
  lemma ParseFromStep(args: seq<string>, argi: nat, o: Options)
    requires argi < |args|
    ensures ReadsCleanly(args, argi) ==>
      ParseFrom(args, argi, o) == ParseFrom(args, argi + OptionWidth(args[argi]), StepOptions(args, argi, o))
    ensures !ReadsCleanly(args, argi) ==> !ParseFrom(args, argi, o).Parsed?
  {
  }

  /** The option loop runs to the end of the command line exactly when
      every option on it reads cleanly. */
  lemma {:induction false} ParsedIffReadsCleanly(args: seq<string>, argi: nat, o: Options)
    ensures ParseFrom(args, argi, o).Parsed?
        <==> forall p :: p in OptionPositions(args, argi) ==> ReadsCleanly(args, p)
    decreases |args| - argi
  {
    if argi < |args| {
      assert OptionPositions(args, argi) == [argi] + OptionPositions(args, argi + OptionWidth(args[argi]));
      ParseFromStep(args, argi, o);
      if ReadsCleanly(args, argi) {
        ParsedIffReadsCleanly(args, argi + OptionWidth(args[argi]), StepOptions(args, argi, o));
      }
    }
  }

  /** The first unknown option ends the loop with a usage error naming it,
      once every option before it has read cleanly. */
  lemma {:induction false} UnrecognizedOptionStops(args: seq<string>, argi: nat, o: Options, k: nat)
    requires k in OptionPositions(args, argi) && Unrecognized(args[k])
    requires forall p :: p in OptionPositions(args, argi) && p < k ==> ReadsCleanly(args, p)
    ensures ParseFrom(args, argi, o) == Usage(UnrecognizedOption(args[k]))
    decreases |args| - argi
  {
    var rest := OptionPositions(args, argi + OptionWidth(args[argi]));
    assert OptionPositions(args, argi) == [argi] + rest;
    if k != argi {
      assert k in rest && ReadsCleanly(args, argi);
      ParseFromStep(args, argi, o);
      UnrecognizedOptionStops(args, argi + OptionWidth(args[argi]), StepOptions(args, argi, o), k);
    }
  }

  /** The transform files named from argi on, with their inversion flags:
      each bare argument with flag 0 and the file after each -i with flag 1,
      in the order they appear. */
  function TransformsFrom(args: seq<string>, argi: nat): (t: (seq<string>, seq<int>))
    ensures |t.0| == |t.1|
    decreases |args| - argi
  {
    if argi >= |args| then ([], [])
    else
      var arg := args[argi];
      var rest := TransformsFrom(args, argi + OptionWidth(arg));
      if arg == "-i" && argi + 1 < |args| then ([args[argi + 1]] + rest.0, [1] + rest.1)
      else if At(arg, 0) != '-' then ([arg] + rest.0, [0] + rest.1)
      else rest
  }

  /** Reading one clean option appends to the transform lists exactly the
      transforms that TransformsFrom finds at that option. */
  lemma TransformsStep(args: seq<string>, argi: nat, o: Options)
    requires argi < |args| && ReadsCleanly(args, argi)
    ensures StepOptions(args, argi, o).transformFiles + TransformsFrom(args, argi + OptionWidth(args[argi])).0
         == o.transformFiles + TransformsFrom(args, argi).0
    ensures StepOptions(args, argi, o).transformInvert + TransformsFrom(args, argi + OptionWidth(args[argi])).1
         == o.transformInvert + TransformsFrom(args, argi).1
  {
    var arg := args[argi];
    var rest := TransformsFrom(args, argi + OptionWidth(arg));
    if arg == "-i" {
      assert o.transformFiles + [args[argi + 1]] + rest.0 == o.transformFiles + ([args[argi + 1]] + rest.0);
      assert o.transformInvert + [1] + rest.1 == o.transformInvert + ([1] + rest.1);
    } else if At(arg, 0) != '-' {
      assert o.transformFiles + [arg] + rest.0 == o.transformFiles + ([arg] + rest.0);
      assert o.transformInvert + [0] + rest.1 == o.transformInvert + ([0] + rest.1);
    }
  }

  /** A successful parse appends exactly the transforms of TransformsFrom
      to the transform list and their flags to the inversion flags. */
  lemma {:induction false} TransformsInOrder(args: seq<string>, argi: nat, o: Options)
    ensures ParseFrom(args, argi, o).Parsed? ==>
      ParseFrom(args, argi, o).options.transformFiles == o.transformFiles + TransformsFrom(args, argi).0
      && ParseFrom(args, argi, o).options.transformInvert == o.transformInvert + TransformsFrom(args, argi).1
    decreases |args| - argi
  {
    if argi < |args| {
      ParseFromStep(args, argi, o);
      if ReadsCleanly(args, argi) {
        TransformsInOrder(args, argi + OptionWidth(args[argi]), StepOptions(args, argi, o));
        TransformsStep(args, argi, o);
      }
    }
  }

  /** After a successful parse, the last output-type flag on the command
      line decides the output type; without any, it stays as it was
      (GreensStrainTensor from the defaults).  Only option positions count:
      a flag spelled as the value of -o or -i is a file name. */
  lemma {:induction false} LastOutputTypeFlagWins(args: seq<string>, argi: nat, o: Options)
    ensures ParseFrom(args, argi, o).Parsed? ==>
      forall k :: k in OptionPositions(args, argi) && OutputTypeFlag(args[k]).Some?
                  && (forall j :: j in OptionPositions(args, argi) && k < j ==> OutputTypeFlag(args[j]).None?)
                  ==> ParseFrom(args, argi, o).options.outputType == OutputTypeFlag(args[k]).value
    ensures ParseFrom(args, argi, o).Parsed?
            && (forall k :: k in OptionPositions(args, argi) ==> OutputTypeFlag(args[k]).None?)
            ==> ParseFrom(args, argi, o).options.outputType == o.outputType
    decreases |args| - argi
  {
    if argi < |args| {
      assert OptionPositions(args, argi) == [argi] + OptionPositions(args, argi + OptionWidth(args[argi]));
      ParseFromStep(args, argi, o);
      if ReadsCleanly(args, argi) {
        LastOutputTypeFlagWins(args, argi + OptionWidth(args[argi]), StepOptions(args, argi, o));
      }
    }
  }

  // ------------------------------------------------------ target image

  predicate EndsWith(s: string, suffix: string)
  {
    |s| >= |suffix| && s[|s| - |suffix|..] == suffix
  }

  /** The test main applies to the first transform file before using it as
      the target image: its name ends in ".nii" or ".nii.gz". */
  predicate EndsInNifti(file: string)
  {
    EndsWith(file, ".nii") || EndsWith(file, ".nii.gz")
  }

  /** The name test main applies to the first transform file picks exactly
      the files that strain_read_transform reads as displacement fields. */
  lemma EndsInNiftiIffDisplacement(file: string)
    ensures EndsInNifti(file) <==> ReaderFor(Extension(file)) == Some(NiftiDisplacement)
  {
    var ext := Extension(file);
    if EndsWith(file, ".nii") {
      var base := file[..|file| - 4];
      assert file == base + ".nii";
      NiiSelectsDisplacementReader(base);
    } else if EndsWith(file, ".nii.gz") {
      var base := file[..|file| - 7];
      assert file == base + ".nii.gz";
      NiiGzSelectsDisplacementReader(base);
    }
    if ext == ".nii" {
      assert EndsWith(file, ".nii");
    } else if ext == ".nii.gz" {
      assert EndsWith(file, ".nii.gz");
    }
  }

  /** What main requires once the options are read: an output file, and a
      target image given with -R or else taken from the first transform file
      when that is a displacement field.  The result is the pair of output
      and target file names. */
  function Files(o: Options): (r: Result<(string, string), ParseError>)
    ensures r.Ok? <==> o.outfile.Some? && (o.targetfile.Some? || (|o.transformFiles| > 0 && EndsInNifti(o.transformFiles[0])))
    ensures r.Err? ==> r.error == (if o.outfile.None? then NoOutputFile else NoTargetFile)
    ensures r.Ok? ==> r.value.0 == o.outfile.value
    ensures r.Ok? && o.targetfile.Some? ==> r.value.1 == o.targetfile.value
    ensures r.Ok? && o.targetfile.None? ==>
      r.value.1 == o.transformFiles[0] && ReaderFor(Extension(r.value.1)) == Some(NiftiDisplacement)
  {
    if o.outfile.None? then Err(NoOutputFile)
    else if o.targetfile.Some? then Ok((o.outfile.value, o.targetfile.value))
    else if |o.transformFiles| > 0 && EndsInNifti(o.transformFiles[0]) then
      EndsInNiftiIffDisplacement(o.transformFiles[0]);
      Ok((o.outfile.value, o.transformFiles[0]))
    else Err(NoTargetFile)
  }

  // ------------------------------------------------------- output extent

  /** The whole extent after --size: along each axis with a requested size,
      the first index is kept and the last one is set so that the axis has
      that many samples; other axes are unchanged. */
  function Resized(extent: seq<int>, outputSize: seq<int>): (r: seq<int>)
    requires |extent| == 6 && |outputSize| == 3
    ensures |r| == 6
  {
    seq(6, k requires 0 <= k < 6 =>
      if k % 2 == 1 && outputSize[k / 2] >= 0 then extent[k - 1] + outputSize[k / 2] - 1 else extent[k])
  }

  /** Along every axis the resized extent starts where it did and holds the
      requested number of samples, or the original number when none was
      requested. */
  lemma ResizedSamples(extent: seq<int>, outputSize: seq<int>, j: nat)
    requires |extent| == 6 && |outputSize| == 3 && j < 3
    ensures Resized(extent, outputSize)[2 * j] == extent[2 * j]
    ensures Resized(extent, outputSize)[2 * j + 1] - Resized(extent, outputSize)[2 * j] + 1
         == if outputSize[j] >= 0 then outputSize[j] else extent[2 * j + 1] - extent[2 * j] + 1
  {
    assert (2 * j + 1) / 2 == j && (2 * j + 1) % 2 == 1 && (2 * j) % 2 == 0;
  }

  /** The extent loop of main, axis by axis, in place. */
  method ResizeExtent(extent: array<int>, outputSize: seq<int>)
    requires extent.Length == 6 && |outputSize| == 3
    modifies extent
    ensures extent[..] == Resized(old(extent[..]), outputSize)
  {
    ghost var e := extent[..];
    for j := 0 to 3
      invariant forall k :: 0 <= k < 6 ==> extent[k] == (if k < 2 * j then Resized(e, outputSize)[k] else e[k])
    {
      assert (2 * j + 1) / 2 == j && (2 * j + 1) % 2 == 1 && (2 * j) % 2 == 0;
      if outputSize[j] >= 0 {
        extent[2 * j + 1] := extent[2 * j] + outputSize[j] - 1;
      }
    }
    assert extent[..] == Resized(e, outputSize);
  }

  // --------------------------------------------------------- output value

  /** The quantities vtkTransformToStrain can compute. */
  datatype StrainOutputValue =
    | DeformationGradientValue
    | GreensStrainTensorValue
    | PrincipalDirectionsValue
    | PrincipalComponentsValue

  /** The quantity main asks vtkTransformToStrain for: both principal
      component outputs compute all principal components. */
  function OutputValueFor(t: OutputType): (v: StrainOutputValue)
    ensures v == PrincipalComponentsValue <==> t == PrincipalComponents || t == PrincipalComponent
  {
    match t
    case DeformationGradient => DeformationGradientValue
    case GreensStrainTensor => GreensStrainTensorValue
    case PrincipalDirections => PrincipalDirectionsValue
    case PrincipalComponents => PrincipalComponentsValue
    case PrincipalComponent => PrincipalComponentsValue
  }

  /** The components main extracts before writing: the three principal
      components, the largest one only, or everything (None). */
  function ExtractedComponents(t: OutputType): (c: Option<seq<nat>>)
    ensures c.Some? <==> OutputValueFor(t) == PrincipalComponentsValue
    ensures c.Some? ==> 1 <= |c.value| <= 3 && forall i :: 0 <= i < |c.value| ==> c.value[i] == i
  {
    if t == PrincipalComponents then Some([0, 1, 2])
    else if t == PrincipalComponent then Some([0])
    else None
  }

  /** Two output types ask for the same quantity exactly when they are the
      same type or both principal component outputs, and the component
      extraction then tells those two apart: every output type writes a
      different file. */
  lemma OutputTypesDistinct(t1: OutputType, t2: OutputType)
    ensures OutputValueFor(t1) == OutputValueFor(t2)
        <==> t1 == t2 || ({t1, t2} <= {PrincipalComponents, PrincipalComponent})
    ensures (OutputValueFor(t1), ExtractedComponents(t1)) == (OutputValueFor(t2), ExtractedComponents(t2)) <==> t1 == t2
  {
  }
}
