/**
 The Fly configuration file that is rendered (scripts/render-environment-config.ts, lines
 136-172), as lines. The names of the variables are parameters.
 */
module FlyTemplate {
  import opened Text
  import opened FlyConfig

  const DockerKey := "dockerfile = "
  const DockerFile := "\"../../../Dockerfile.langgraph\""

  function Head(appName: string): seq<string> {
    ["app = \"" + appName + "\"", "primary_region = \"fra\"", "", "[build]", DockerKey + DockerFile, ""]
  }

  const Listening := ["[http_service]", "internal_port = 3000", "force_https = true", "auto_stop_machines = \"stop\""]
  const Running := ["auto_start_machines = true", "min_machines_running = 1", "processes = [\"app\"]", ""]
  const Checks := ["[[http_service.checks]]", "interval = \"15s\"", "timeout = \"2s\"", "grace_period = \"20s\""]
  const Health := ["method = \"GET\"", "path = \"/health/live\"", "", "[vm]"]
  const Machine := ["cpu_kind = \"shared\"", "cpus = 1", "memory = \"1gb\"", ""]
  const Rest := Running + Checks + Health + Machine
  const Tail := Listening + Rest

  function RenderFly(appName: string, entries: seq<Entry>): string {
    SectionText(Head(appName), entries, Tail)
  }

  predicate Printable(line: string) {
    forall i :: 0 <= i < |line| ==> ' ' <= line[i] <= '~'
  }

  /** A line of the template: blank, or starting with a letter, or another section. */
  predicate Ordinary(line: string) {
    Printable(line) && (line == "" || 'a' <= line[0] <= 'z' || (line[0] == '[' && |line| != 5 && line[|line| - 1] == ']'))
  }

  lemma OrdinaryIsPlain(line: string)
    requires Ordinary(line)
    ensures '\n' !in line && !IsEnvHeader(line)
  {
    assert |"[env]"| == 5 && |Trim("")| == 0;
    if line != "" {
      if 'a' <= line[0] <= 'z' { NotBracketed(line); } else { TrimTrimmed(line); }
    }
  }

  predicate AllOrdinary(lines: seq<string>) {
    forall i :: 0 <= i < |lines| ==> Ordinary(lines[i])
  }

  lemma FourOrdinary(a: string, b: string, c: string, d: string)
    requires Ordinary(a) && Ordinary(b) && Ordinary(c) && Ordinary(d)
    ensures AllOrdinary([a, b, c, d])
  {
  }

  lemma ListeningOrdinary()
    ensures AllOrdinary(Listening)
  {
    assert Ordinary("[http_service]") && Ordinary("internal_port = 3000");
    FourOrdinary("[http_service]", "internal_port = 3000", "force_https = true", "auto_stop_machines = \"stop\"");
  }

  lemma RunningOrdinary()
    ensures AllOrdinary(Running)
  {
    FourOrdinary("auto_start_machines = true", "min_machines_running = 1", "processes = [\"app\"]", "");
  }

  lemma ChecksOrdinary()
    ensures AllOrdinary(Checks)
  {
    FourOrdinary("[[http_service.checks]]", "interval = \"15s\"", "timeout = \"2s\"", "grace_period = \"20s\"");
  }

  lemma HealthOrdinary()
    ensures AllOrdinary(Health)
  {
    FourOrdinary("method = \"GET\"", "path = \"/health/live\"", "", "[vm]");
  }

  lemma MachineOrdinary()
    ensures AllOrdinary(Machine)
  {
    FourOrdinary("cpu_kind = \"shared\"", "cpus = 1", "memory = \"1gb\"", "");
  }

  lemma OrdinaryConcat(a: seq<string>, b: seq<string>)
    requires AllOrdinary(a) && AllOrdinary(b)
    ensures AllOrdinary(a + b)
  {
  }

  lemma OrdinaryConcats(a: seq<string>, b: seq<string>, c: seq<string>, d: seq<string>)
    requires AllOrdinary(a) && AllOrdinary(b) && AllOrdinary(c) && AllOrdinary(d)
    ensures AllOrdinary(a + b + c + d)
  {
    OrdinaryConcat(a, b);
    OrdinaryConcat(a + b, c);
    OrdinaryConcat(a + b + c, d);
  }

  lemma TailOrdinary()
    ensures AllOrdinary(Tail)
  {
    ListeningOrdinary();
    RunningOrdinary();
    ChecksOrdinary();
    HealthOrdinary();
    MachineOrdinary();
    OrdinaryConcats(Running, Checks, Health, Machine);
    OrdinaryConcat(Listening, Rest);
  }

  lemma OrdinaryLines(lines: seq<string>)
    requires AllOrdinary(lines)
    ensures NoHeader(lines) && Unbroken(lines)
  {
    forall i | 0 <= i < |lines| ensures !IsEnvHeader(lines[i]) && '\n' !in lines[i] {
      OrdinaryIsPlain(lines[i]);
    }
  }

  lemma BracketCloses(line: string)
    requires |line| > 5 && line[0] == '[' && line[|line| - 1] == ']'
    ensures Closes(line)
  {
    TrimTrimmed(line);
    assert |"[env]"| == 5 && line[..1] == "[";
  }

  lemma FirstCloses(listening: seq<string>, rest: seq<string>)
    requires listening != [] && listening[0] == "[http_service]"
    ensures listening + rest != [] && Closes((listening + rest)[0])
  {
    var l := "[http_service]";
    assert |l| == 14 && l[13] == ']';
    BracketCloses(l);
  }

  lemma TailCloses()
    ensures Tail != [] && Closes(Tail[0])
  {
    FirstCloses(Listening, Rest);
  }

  lemma AppLine(appName: string)
    requires '\n' !in appName
    ensures var line := "app = \"" + appName + "\""; '\n' !in line && !IsEnvHeader(line)
  {
    NotBracketed("app = \"" + appName + "\"");
  }

  lemma DockerLine()
    ensures Ordinary(DockerKey + DockerFile)
  {
    assert Printable(DockerKey) && DockerKey[0] == 'd';
    assert Printable(DockerFile);
  }

  lemma BuildLines()
    ensures Ordinary("primary_region = \"fra\"") && Ordinary("") && Ordinary("[build]")
  {
  }

  lemma HeadReads(appName: string)
    requires '\n' !in appName
    ensures NoHeader(Head(appName)) && Unbroken(Head(appName))
  {
    AppLine(appName);
    DockerLine();
    BuildLines();
    OrdinaryLines(["primary_region = \"fra\"", "", "[build]", DockerKey + DockerFile, ""]);
    assert Head(appName) == ["app = \"" + appName + "\""] + ["primary_region = \"fra\"", "", "[build]", DockerKey + DockerFile, ""];
  }

  lemma TemplateSurrounds(appName: string)
    requires '\n' !in appName
    ensures Surrounds(Head(appName), Tail)
  {
    HeadReads(appName);
    TailOrdinary();
    OrdinaryLines(Tail);
    TailCloses();
  }

  /** The rendered file, read again, defines exactly its entries, for any application name
      and any values without a line break. */
  lemma RenderedReads(appName: string, entries: seq<Entry>)
    requires '\n' !in appName && Writable(entries)
    ensures ReadInventory(RenderFly(appName, entries), []) == EnvOf(entries)
  {
    TemplateSurrounds(appName);
    SectionRoundTrip(Head(appName), entries, Tail);
  }
}
