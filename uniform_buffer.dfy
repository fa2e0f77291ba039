// The uniform block handed to the renderer: model, view, projection and the
// combined MVP matrix, the camera position and an animation time, each
// updated field by field through a pointer.
module UniformBuffer {
  import opened MachineWords
  import opened GibgoTypes
  import opened GibgoMath

  /** `GibgoUniformBuffer`. */
  class UniformBuffer {
    var modelMatrix: Matrix
    var viewMatrix: Matrix
    var projectionMatrix: Matrix
    var mvpMatrix: Matrix
    var cameraPosition: Vec3f
    var time: F32

    constructor (model: Matrix, view: Matrix, projection: Matrix, mvp: Matrix,
                 position: Vec3f, t: F32)
      ensures modelMatrix == model && viewMatrix == view && projectionMatrix == projection
      ensures mvpMatrix == mvp && cameraPosition == position && time == t
    {
      modelMatrix, viewMatrix, projectionMatrix, mvpMatrix := model, view, projection, mvp;
      cameraPosition, time := position, t;
    }
  }

  /**
   * `uniform_buffer_initialize`: all four matrices become the identity and the
   * camera position and time zero; a null buffer is left alone.
   */
  method Initialize(buffer: UniformBuffer?)
    modifies buffer
    ensures buffer != null ==>
      buffer.modelMatrix == Known(Identity()) && buffer.viewMatrix == Known(Identity()) &&
      buffer.projectionMatrix == Known(Identity()) && buffer.mvpMatrix == Known(Identity()) &&
      buffer.cameraPosition == Vec3fCreate(F32_ZERO, F32_ZERO, F32_ZERO) &&
      buffer.time == F32_ZERO
  {
    if buffer == null {
      return;
    }
    buffer.modelMatrix := Known(Identity());
    buffer.viewMatrix := Known(Identity());
    buffer.projectionMatrix := Known(Identity());
    buffer.mvpMatrix := Known(Identity());
    buffer.cameraPosition := Vec3fCreate(F32_ZERO, F32_ZERO, F32_ZERO);
    buffer.time := F32_ZERO;
  }

  /**
   * `uniform_buffer_update_matrices`: stores the three matrices verbatim and
   * the product projection * (view * model); camera position and time are
   * kept. Any absent argument makes it a no-op.
   */
  method UpdateMatrices(buffer: UniformBuffer?, model: Option<Matrix>, view: Option<Matrix>,
                        projection: Option<Matrix>)
    modifies buffer
    ensures buffer != null && (model.None? || view.None? || projection.None?) ==> unchanged(buffer)
    ensures buffer != null && model.Some? && view.Some? && projection.Some? ==>
      buffer.modelMatrix == model.value && buffer.viewMatrix == view.value &&
      buffer.projectionMatrix == projection.value &&
      buffer.mvpMatrix == Multiply(projection.value, Multiply(view.value, model.value)) &&
      buffer.cameraPosition == old(buffer.cameraPosition) && buffer.time == old(buffer.time)
  {
    if buffer == null || model.None? || view.None? || projection.None? {
      return;
    }
    buffer.modelMatrix := model.value;
    buffer.viewMatrix := view.value;
    buffer.projectionMatrix := projection.value;
    var temp := Multiply(view.value, model.value);
    buffer.mvpMatrix := Multiply(projection.value, temp);
  }

  /** `uniform_buffer_set_time`: only `time` changes. */
  method SetTime(buffer: UniformBuffer?, time: F32)
    modifies buffer
    ensures buffer != null ==>
      buffer.time == time &&
      buffer.modelMatrix == old(buffer.modelMatrix) && buffer.viewMatrix == old(buffer.viewMatrix) &&
      buffer.projectionMatrix == old(buffer.projectionMatrix) && buffer.mvpMatrix == old(buffer.mvpMatrix) &&
      buffer.cameraPosition == old(buffer.cameraPosition)
  {
    if buffer == null {
      return;
    }
    buffer.time := time;
  }

  /** `uniform_buffer_set_camera_position`: only the camera position changes; an absent position is a no-op. */
  method SetCameraPosition(buffer: UniformBuffer?, position: Option<Vec3f>)
    modifies buffer
    ensures buffer != null && position.None? ==> unchanged(buffer)
    ensures buffer != null && position.Some? ==>
      buffer.cameraPosition == position.value &&
      buffer.modelMatrix == old(buffer.modelMatrix) && buffer.viewMatrix == old(buffer.viewMatrix) &&
      buffer.projectionMatrix == old(buffer.projectionMatrix) && buffer.mvpMatrix == old(buffer.mvpMatrix) &&
      buffer.time == old(buffer.time)
  {
    if buffer == null || position.None? {
      return;
    }
    buffer.cameraPosition := position.value;
  }
}
