/**
 * The stand-alone fine-tuning script run.py: the argument check of
 * upload_file, the arguments create_model passes to the service, the loop
 * that waits for the job to leave `pending`, and the result of
 * stream_fine_tuning for the job's final status. The service's answers are
 * parameters.
 */
module Run {
  import opened Wrappers
  import opened Py
  import HandlerSpec

  type byte = bv8

  /** Where upload_file takes the bytes it uploads from. */
  datatype UploadSource = FromFile(path: string) | FromContent(content: seq<byte>, name: Option<string>)

  /** The ValueError upload_file raises. */
  const UploadArgumentError := "Exactly one of `file` or `content` must be provided"

  /** upload_file's check: exactly one of a file path and in-memory content. */
  function UploadSourceOf(file: Option<string>, content: Option<seq<byte>>): (r: Result<UploadSource, string>)
    ensures r.Failure? <==> (file.None? == content.None?)
    ensures r.Failure? ==> r.error == UploadArgumentError
    ensures r.Success? && file.Some? ==> r.value == FromFile(file.value)
    ensures r.Success? && content.Some? ==> r.value.FromContent? && r.value.content == content.value
  {
    if file.None? == content.None? then Failure(UploadArgumentError)
    else if content.None? then Success(FromFile(file.value))
    else Success(FromContent(content.value, file))
  }

  /** The options create_model copies from its keyword arguments. */
  const FineTuneOptions: set<string> := {
    "model", "suffix", "n_epochs", "batch_size", "learning_rate_multiplier",
    "prompt_loss_weight", "compute_classification_metrics", "classification_n_classes",
    "classification_positive_class", "classification_betas"
  }

  /** The keys create_model sets itself. */
  predicate FileKey(k: string) {
    k == "training_file" || k == "validation_file"
  }

  /**
   * The arguments create_model passes to the fine-tune service. `trainingId`
   * and `validationId` are the ids the uploads returned.
   */
  method CreateArgs(trainingId: string, validationFile: Option<string>, validationId: string,
                    kwargs: map<string, Value>)
    returns (createArgs: map<string, Value>)
    ensures "training_file" in createArgs && createArgs["training_file"] == Str(trainingId)
    ensures "validation_file" in createArgs <==> validationFile.Some? && validationFile.value != ""
    ensures "validation_file" in createArgs ==> createArgs["validation_file"] == Str(validationId)
    ensures forall k | !FileKey(k) ::
      k in createArgs <==> k in kwargs && k in FineTuneOptions && kwargs[k] != NoneValue
    ensures forall k | k in createArgs && !FileKey(k) :: createArgs[k] == kwargs[k]
  {
    createArgs := map["training_file" := Str(trainingId)];
    if validationFile.Some? && validationFile.value != "" {
      createArgs := createArgs["validation_file" := Str(validationId)];
    }
    var keys := kwargs.Keys;
    while keys != {}
      invariant keys <= kwargs.Keys
      invariant "training_file" in createArgs && createArgs["training_file"] == Str(trainingId)
      invariant "validation_file" in createArgs <==> validationFile.Some? && validationFile.value != ""
      invariant "validation_file" in createArgs ==> createArgs["validation_file"] == Str(validationId)
      invariant forall k | !FileKey(k) ::
        k in createArgs <==> k in kwargs && k !in keys && k in FineTuneOptions && kwargs[k] != NoneValue
      invariant forall k | k in createArgs && !FileKey(k) :: createArgs[k] == kwargs[k]
      decreases keys
    {
      var key :| key in keys;
      if kwargs[key] != NoneValue && key in FineTuneOptions {
        createArgs := createArgs[key := kwargs[key]];
      }
      keys := keys - {key};
    }
  }

  /**
   * wait_for_fine_tuning: polls until the job is no longer `pending`.
   * `statuses` are the answers of successive polls; if every one of them is
   * `pending` the script would go on polling, and the method stops there.
   */
  method WaitForFineTuning(statuses: seq<string>) returns (status: string, polls: nat)
    ensures polls <= |statuses|
    ensures forall i | 0 <= i < polls - 1 :: statuses[i] == "pending"
    ensures status != "pending" ==> polls > 0 && statuses[polls - 1] == status
    ensures status == "pending" ==> polls == |statuses| && forall i | 0 <= i < |statuses| :: statuses[i] == "pending"
  {
    status := "pending";
    polls := 0;
    while status == "pending" && polls < |statuses|
      invariant polls <= |statuses|
      invariant forall i | 0 <= i < polls - 1 :: statuses[i] == "pending"
      invariant polls > 0 ==> statuses[polls - 1] == status
      invariant polls == 0 ==> status == "pending"
      decreases |statuses| - polls
    {
      status := statuses[polls];
      polls := polls + 1;
    }
    if status == "pending" {
      forall i | 0 <= i < |statuses| ensures statuses[i] == "pending" {
        if i == polls - 1 {
          assert statuses[polls - 1] == status;
        }
      }
    }
  }

  /** The job as the service describes it when stream_fine_tuning asks for it the last time. */
  datatype JobResponse = JobResponse(status: string, fineTunedModel: string)

  /** stream_fine_tuning's result: the model on success; None on failure and, by falling off the end, otherwise. */
  function StreamResult(resp: JobResponse): (r: Option<string>)
    ensures r.Some? <==> resp.status == "succeeded"
    ensures r.Some? ==> r.value == resp.fineTunedModel
  {
    match resp.status
    case "succeeded" => Some(resp.fineTunedModel)
    case "failed" => None
    case _ => None
  }

  /** The script and the bot's own fine-tune report the same outcome for the same final answer. */
  lemma StreamResultMatchesHandler(resp: JobResponse)
    ensures StreamResult(resp) == HandlerSpec.FineTuneResult(resp.status, resp.fineTunedModel)
  {
  }
}
