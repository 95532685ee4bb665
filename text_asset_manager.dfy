/** TextAssetManager: for each text asset name, an ordered list of text
    processors applied one after the other to the asset's content. */
module TextAssets {
  import opened Common

  /** The pipelines, keyed by asset name with the default (case-sensitive)
      comparer. */
  type ProcessorMap = map<string, seq<Processor>>

  /** One stage: a processor that throws leaves the text as it was. */
  function Stage(p: Processor, text: string): string {
    match p(text)
    case Some(t) => t
    case None => text
  }

  /** The stages applied in registration order, each to the previous one's
      output. */
  function RunPipeline(ps: seq<Processor>, text: string): string
    decreases |ps|
  {
    if ps == [] then text else Stage(ps[|ps| - 1], RunPipeline(ps[..|ps| - 1], text))
  }

  /** Running two pipelines one after the other is running their
      concatenation. */
  lemma {:induction false} RunPipelineAppend(ps: seq<Processor>, qs: seq<Processor>, text: string)
    ensures RunPipeline(ps + qs, text) == RunPipeline(qs, RunPipeline(ps, text))
    decreases |qs|
  {
    if qs == [] {
      assert ps + qs == ps;
    } else {
      var init := qs[..|qs| - 1];
      assert (ps + qs)[..|ps + qs| - 1] == ps + init;
      RunPipelineAppend(ps, init, text);
    }
  }

  /** A stage that throws on the text it receives is as if it were not
      there: the later stages still run, on the earlier stages' output. */
  lemma ThrowingStageSkipped(ps: seq<Processor>, p: Processor, qs: seq<Processor>, text: string)
    requires p(RunPipeline(ps, text)).None?
    ensures RunPipeline(ps + [p] + qs, text) == RunPipeline(ps + qs, text)
  {
    RunPipelineAppend(ps + [p], qs, text);
    RunPipelineAppend(ps, [p], text);
    RunPipelineAppend(ps, qs, text);
    assert RunPipeline([p], RunPipeline(ps, text)) == RunPipeline(ps, text) by {
      assert [p][..0] == [];
    }
  }

  /** The pipeline registered for `name`, empty when there is none. */
  function Pipeline(pm: ProcessorMap, name: string): seq<Processor> {
    if name in pm then pm[name] else []
  }

  /** One registration: an empty name or a null processor changes nothing;
      otherwise the processor goes to the end of the name's list, which is
      created when absent, and no other list changes. */
  function AddProcessor(pm: ProcessorMap, name: string, p: Option<Processor>): (r: ProcessorMap)
    ensures name == "" || p.None? ==> r == pm
    ensures name != "" && p.Some? ==> name in r && r[name] == Pipeline(pm, name) + [p.value]
    ensures forall n :: n != name ==> (n in r <==> n in pm)
    ensures forall n :: n != name && n in pm ==> r[n] == pm[n]
  {
    if name == "" || p.None? then pm
    else pm[name := Pipeline(pm, name) + [p.value]]
  }

  /** Registering each entry in turn, first to last. */
  function AddAll(pm: ProcessorMap, entries: seq<(string, Option<Processor>)>): ProcessorMap
    decreases |entries|
  {
    if entries == [] then pm
    else
      var last := entries[|entries| - 1];
      AddProcessor(AddAll(pm, entries[..|entries| - 1]), last.0, last.1)
  }

  /** The processors among `entries` that register for `name`, in order. */
  function ProcessorsFor(entries: seq<(string, Option<Processor>)>, name: string): seq<Processor>
    decreases |entries|
  {
    if entries == [] then []
    else
      var last := entries[|entries| - 1];
      ProcessorsFor(entries[..|entries| - 1], name) +
        (if last.0 == name && name != "" && last.1.Some? then [last.1.value] else [])
  }

  /** After a batch of registrations, each name's pipeline is its old
      pipeline followed by the processors registered for it, in order. */
  lemma {:induction false} AddAllAppends(pm: ProcessorMap, entries: seq<(string, Option<Processor>)>, name: string)
    ensures Pipeline(AddAll(pm, entries), name) == Pipeline(pm, name) + ProcessorsFor(entries, name)
    ensures name in AddAll(pm, entries) <==> name in pm || ProcessorsFor(entries, name) != []
    decreases |entries|
  {
    if entries != [] {
      var init := entries[..|entries| - 1];
      AddAllAppends(pm, init, name);
    }
  }

  class TextAssetManager {
    var processorMap: ProcessorMap

    constructor ()
      ensures processorMap == map[]
    {
      processorMap := map[];
    }

    method RegisterProcessor(assetName: string, processor: Option<Processor>)
      modifies this
      ensures processorMap == AddProcessor(old(processorMap), assetName, processor)
    {
      if assetName == "" || processor.None? {
        return;
      }
      if assetName !in processorMap {
        processorMap := processorMap[assetName := []];
      }
      processorMap := processorMap[assetName := processorMap[assetName] + [processor.value]];
    }

    /** No pipeline, or an empty one: false, and the content is returned as
        it is. Otherwise true, with the pipeline's output, even when that
        output equals the input. */
    method TryGetModifiedContent(assetName: string, originalContent: string)
        returns (modified: bool, modifiedContent: string)
      ensures modified <==> Pipeline(processorMap, assetName) != []
      ensures modifiedContent == RunPipeline(Pipeline(processorMap, assetName), originalContent)
    {
      modifiedContent := originalContent;
      if assetName !in processorMap || |processorMap[assetName]| == 0 {
        return false, modifiedContent;
      }
      var processors := processorMap[assetName];
      var currentText := originalContent;
      for i := 0 to |processors|
        invariant currentText == RunPipeline(processors[..i], originalContent)
      {
        assert processors[..i + 1][..i] == processors[..i];
        var output := processors[i](currentText);
        if output.Some? {
          currentText := output.value;
        }
      }
      assert processors[..|processors|] == processors;
      modifiedContent := currentText;
      return true, modifiedContent;
    }

    method Clear()
      modifies this
      ensures processorMap == map[]
    {
      processorMap := map[];
    }
  }
}
