/** Option, Result and Outcome, and the failures raised by the variable
    collectors and the restore planner. */
module Wrappers {

  datatype Option<+T> = None | Some(value: T)

  datatype Result<+R> = Ok(value: R) | Err(error: Error)

  /** The result of an operation that returns nothing on success. */
  datatype Outcome = Pass | Fail(error: Error)

  /** The failures the model keeps. `UnknownCollection` stands for both raises
      on an unknown tag; `DeviceCountExceeded` and `NoGradientsCollected`
      stand for asserts. The asserts on the tensor and its name in
      `_add_to_dict` and the re-raise in `_current_tower_id` have no
      constructor. */
  datatype Error =
    /** `assert` in `GradientsCollector.add_to_collection`: one set per device. */
    | DeviceCountExceeded
    /** `assert` in `GradientsCollector.gradients`: nothing collected yet. */
    | NoGradientsCollected
    /** `AttributeError`: an averaged name already holds a single tensor. */
    | AveragedNameTaken(name: string)
    /** `ValueError`: an averaged name was added more often than there are devices. */
    | AveragedNameOverused(name: string)
    /** `ValueError`: a collection tag other than the three known ones. */
    | UnknownCollection(collection: string)
    /** Failure of the summary-type lookup. */
    | UnsupportedSummaryType(summaryType: string)
    /** Failure to resolve or list a checkpoint. */
    | CheckpointNotFound(checkpointName: string)
}
