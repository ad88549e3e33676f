/** `DiscordBot.load_cogs`: every file of the `cogs` directory whose name
    ends in ".py" is loaded as extension `cogs.<name>`; each load is tried on
    its own, and the i-th log line is the outcome of the i-th attempt. */
module ExtensionLoader {
  import Text
  import opened Logging

  /** What `load_extension` raised: the exception's class name and text. */
  datatype LoadError = LoadError(typeName: string, message: string)

  predicate IsExtensionFile(file: string)
  {
    Text.EndsWith(file, ".py")
  }

  /** `file[:-3]`: the file name without its ".py" suffix. */
  function ExtensionName(file: string): (name: string)
    requires IsExtensionFile(file)
    ensures name + ".py" == file
  {
    file[..|file| - 3]
  }

  /** The module path handed to `load_extension`. */
  function ModulePath(extension: string): string
  {
    "cogs." + extension
  }

  /** The extension one directory entry names, if any. */
  function EntryExtension(file: string): (r: seq<string>)
    ensures |r| <= 1
  {
    if IsExtensionFile(file) then [ExtensionName(file)] else []
  }

  /** The extensions named by a directory listing, in listing order. */
  function Extensions(listing: seq<string>): (r: seq<string>)
    ensures |r| <= |listing|
    decreases |listing|
  {
    if listing == [] then [] else EntryExtension(listing[0]) + Extensions(listing[1..])
  }

  /** The line logged after trying to load one extension; `failures` says
      which module paths raise, and with what. */
  function LoadLogLine(extension: string, failures: map<string, LoadError>): (line: LogLine)
    ensures line.Error? <==> ModulePath(extension) in failures
  {
    var path := ModulePath(extension);
    if path in failures then
      Error("Failed to load extension " + extension + "\n" + failures[path].typeName + ": " + failures[path].message)
    else
      Info("Loaded extension '" + extension + "'")
  }

  /** The log of a whole run: one line per extension, in order. */
  function LoadLog(extensions: seq<string>, failures: map<string, LoadError>): (log: seq<LogLine>)
    ensures |log| == |extensions|
    ensures forall i :: 0 <= i < |log| ==> log[i] == LoadLogLine(extensions[i], failures)
  {
    seq(|extensions|, i requires 0 <= i < |extensions| => LoadLogLine(extensions[i], failures))
  }

  function ModulePaths(extensions: seq<string>): (paths: seq<string>)
    ensures |paths| == |extensions|
    ensures forall i :: 0 <= i < |paths| ==> paths[i] == ModulePath(extensions[i])
  {
    seq(|extensions|, i requires 0 <= i < |extensions| => ModulePath(extensions[i]))
  }

  /** Listing order is kept: the extensions of two listings one after the
      other are those of the first followed by those of the second. */
  lemma {:induction false} ExtensionsAppend(a: seq<string>, b: seq<string>)
    ensures Extensions(a + b) == Extensions(a) + Extensions(b)
    decreases |a|
  {
    if a == [] {
      assert a + b == b;
    } else {
      var ab := a + b;
      assert ab[0] == a[0];
      assert ab[1..] == a[1..] + b;
      assert Extensions(ab) == EntryExtension(a[0]) + Extensions(a[1..] + b);
      ExtensionsAppend(a[1..], b);
      assert Extensions(a) == EntryExtension(a[0]) + Extensions(a[1..]);
    }
  }

  lemma ExtensionsSnoc(listing: seq<string>, i: nat)
    requires i < |listing|
    ensures Extensions(listing[..i + 1]) == Extensions(listing[..i]) + EntryExtension(listing[i])
  {
    assert listing[..i + 1] == listing[..i] + [listing[i]];
    ExtensionsAppend(listing[..i], [listing[i]]);
    assert [listing[i]][1..] == [];
  }

  /** One more entry of the listing adds at most one attempt and one line. */
  lemma LoadStep(listing: seq<string>, i: nat, failures: map<string, LoadError>)
    requires i < |listing|
    ensures var before, after := Extensions(listing[..i]), Extensions(listing[..i + 1]);
      if IsExtensionFile(listing[i]) then
        var extension := ExtensionName(listing[i]);
        ModulePaths(after) == ModulePaths(before) + [ModulePath(extension)] &&
        LoadLog(after, failures) == LoadLog(before, failures) + [LoadLogLine(extension, failures)]
      else
        ModulePaths(after) == ModulePaths(before) && LoadLog(after, failures) == LoadLog(before, failures)
  {
    ExtensionsSnoc(listing, i);
  }

  /** Exactly the ".py" entries of the listing, with the suffix removed, are
      attempted. */
  lemma {:induction false} ExtensionsMembers(listing: seq<string>, name: string)
    ensures name in Extensions(listing) <==>
      exists i :: 0 <= i < |listing| && IsExtensionFile(listing[i]) && name == ExtensionName(listing[i])
    decreases |listing|
  {
    if listing != [] {
      ExtensionsMembers(listing[1..], name);
      if name in Extensions(listing[1..]) {
        var i :| 0 <= i < |listing[1..]| && IsExtensionFile(listing[1..][i]) && name == ExtensionName(listing[1..][i]);
        assert listing[i + 1] == listing[1..][i];
      }
      if exists i :: 0 <= i < |listing| && IsExtensionFile(listing[i]) && name == ExtensionName(listing[i]) {
        var i :| 0 <= i < |listing| && IsExtensionFile(listing[i]) && name == ExtensionName(listing[i]);
        if i > 0 {
          assert listing[1..][i - 1] == listing[i];
        }
      }
    }
  }

  function CountErrors(log: seq<LogLine>): nat
    decreases |log|
  {
    if log == [] then 0 else (if log[0].Error? then 1 else 0) + CountErrors(log[1..])
  }

  function CountFailing(extensions: seq<string>, failures: map<string, LoadError>): nat
    decreases |extensions|
  {
    if extensions == [] then 0
    else (if ModulePath(extensions[0]) in failures then 1 else 0) + CountFailing(extensions[1..], failures)
  }

  /** Failures are isolated: the log holds exactly one error per extension
      whose load raised, and one info line for each of the others. */
  lemma {:induction false} OneErrorPerFailure(extensions: seq<string>, failures: map<string, LoadError>)
    ensures CountErrors(LoadLog(extensions, failures)) == CountFailing(extensions, failures)
    decreases |extensions|
  {
    if extensions != [] {
      OneErrorPerFailure(extensions[1..], failures);
      assert LoadLog(extensions, failures)[1..] == LoadLog(extensions[1..], failures);
    }
  }

  lemma ThreeExtensions()
    ensures Extensions(["a.py", "b.py", "c.py"]) == ["a", "b", "c"]
  {
    var listing := ["a.py", "b.py", "c.py"];
    assert ExtensionName("a.py") == "a";
    assert ExtensionName("b.py") == "b";
    assert ExtensionName("c.py") == "c";
    assert listing[1..] == ["b.py", "c.py"];
    assert listing[1..][1..] == ["c.py"];
  }

  /** Three modules of which the second fails to load: all three are tried,
      in order, the first and the third are loaded and only one failure is
      logged. */
  lemma SecondOfThreeFails(e: LoadError)
    ensures var listing := ["a.py", "b.py", "c.py"];
      var failures := map["cogs.b" := e];
      var log := LoadLog(Extensions(listing), failures);
      ModulePaths(Extensions(listing)) == ["cogs.a", "cogs.b", "cogs.c"] &&
      |log| == 3 && log[0].Info? && log[1].Error? && log[2].Info? &&
      CountErrors(log) == 1
  {
    ThreeExtensions();
    var failures := map["cogs.b" := e];
    var log := LoadLog(["a", "b", "c"], failures);
    assert ModulePath("a") == "cogs.a" && ModulePath("b") == "cogs.b" && ModulePath("c") == "cogs.c";
    assert log[0].Info? && log[1].Error? && log[2].Info?;
    assert log[1..][1..][1..] == [];
    assert CountErrors(log[1..][1..]) == 0;
  }

  /** The loop of `load_cogs`: walks the listing in order, records each
      module path it tries to load, and logs one line per attempt; the i-th
      log line is the outcome of the i-th attempt. */
  method LoadCogs(listing: seq<string>, failures: map<string, LoadError>)
    returns (attempted: seq<string>, log: seq<LogLine>)
    ensures attempted == ModulePaths(Extensions(listing))
    ensures log == LoadLog(Extensions(listing), failures)
  {
    attempted, log := [], [];
    var i := 0;
    while i < |listing|
      invariant 0 <= i <= |listing|
      invariant attempted == ModulePaths(Extensions(listing[..i]))
      invariant log == LoadLog(Extensions(listing[..i]), failures)
    {
      var file := listing[i];
      LoadStep(listing, i, failures);
      if IsExtensionFile(file) {
        var extension := ExtensionName(file);
        attempted := attempted + [ModulePath(extension)];
        log := log + [LoadLogLine(extension, failures)];
      }
      i := i + 1;
    }
    assert listing[..i] == listing;
  }
}
