// The camera of the rotating-cube program: viewing and projection parameters
// plus three cached matrices that are recomputed lazily, guarded by a dirty
// flag. The matrix routines are the uninterpreted `Matrix` terms.
module CameraCache {
  import opened MachineWords
  import opened GibgoTypes
  import opened GibgoMath

  // Bit patterns of the single-precision literals of the default camera.
  const F32_EIGHT: F32 := F32(0x4100_0000)            // 8.0f
  const F32_QUARTER_PI: F32 := F32(0x3F49_0FD0)       // 3.14159f / 4.0f
  const F32_ASPECT_4_3: F32 := F32(0x3FAA_AAAB)       // 800.0f / 600.0f
  const F32_ONE_TENTH: F32 := F32(0x3DCC_CCCD)        // 0.1f
  const F32_HUNDRED: F32 := F32(0x42C8_0000)          // 100.0f

  /** The all-zero matrix the cached matrices start as. */
  function ZeroMatrix(): (r: Mat4f)
    ensures forall col, row :: 0 <= col < 4 && 0 <= row < 4 ==> At(r, col, row) == F32_ZERO
  {
    var z := Vec4f(F32_ZERO, F32_ZERO, F32_ZERO, F32_ZERO);
    Mat4f(z, z, z, z)
  }

  class Camera {
    var position: Vec3f
    var target: Vec3f
    var up: Vec3f
    var fieldOfView: F32
    var aspectRatio: F32
    var nearPlane: F32
    var farPlane: F32
    var viewMatrix: Matrix
    var projectionMatrix: Matrix
    var viewProjection: Matrix
    var matricesDirty: bool

    /** The view matrix the current parameters determine. */
    function View(): Matrix
      reads this
    {
      LookAt(position, target, up)
    }

    /** The projection matrix the current parameters determine. */
    function Projection(): Matrix
      reads this
    {
      Perspective(fieldOfView, aspectRatio, nearPlane, farPlane)
    }

    /** A clean camera's cached matrices are those of its current parameters. */
    predicate Consistent()
      reads this
    {
      !matricesDirty ==>
        viewMatrix == View() && projectionMatrix == Projection() &&
        viewProjection == Multiply(Projection(), View())
    }

    /**
     * `camera_create_default`: eight units back on the z axis looking at the
     * origin with y up, a 45-degree field of view, 4:3 aspect ratio, planes at
     * 0.1 and 100, zero cached matrices and the dirty flag set.
     */
    constructor Default()
      ensures position == Vec3fCreate(F32_ZERO, F32_ZERO, F32_EIGHT)
      ensures target == Vec3fCreate(F32_ZERO, F32_ZERO, F32_ZERO)
      ensures up == Vec3fCreate(F32_ZERO, F32_ONE, F32_ZERO)
      ensures fieldOfView == F32_QUARTER_PI && aspectRatio == F32_ASPECT_4_3
      ensures nearPlane == F32_ONE_TENTH && farPlane == F32_HUNDRED
      ensures viewMatrix == Known(ZeroMatrix()) && projectionMatrix == Known(ZeroMatrix())
      ensures viewProjection == Known(ZeroMatrix())
      ensures matricesDirty
      ensures Consistent()
    {
      position := Vec3fCreate(F32_ZERO, F32_ZERO, F32_EIGHT);
      target := Vec3fCreate(F32_ZERO, F32_ZERO, F32_ZERO);
      up := Vec3fCreate(F32_ZERO, F32_ONE, F32_ZERO);
      fieldOfView := F32_QUARTER_PI;
      aspectRatio := F32_ASPECT_4_3;
      nearPlane := F32_ONE_TENTH;
      farPlane := F32_HUNDRED;
      viewMatrix := Known(ZeroMatrix());
      projectionMatrix := Known(ZeroMatrix());
      viewProjection := Known(ZeroMatrix());
      matricesDirty := true;
    }
  }

  /** Everything except the cached matrices and the dirty flag is as before. */
  twostate predicate ParametersUnchanged(c: Camera)
    reads c
  {
    c.position == old(c.position) && c.target == old(c.target) && c.up == old(c.up) &&
    c.fieldOfView == old(c.fieldOfView) && c.aspectRatio == old(c.aspectRatio) &&
    c.nearPlane == old(c.nearPlane) && c.farPlane == old(c.farPlane)
  }

  /**
   * `camera_update_matrices`: a null or clean camera is left alone; a dirty
   * one gets view = look_at(position, target, up), projection =
   * perspective(fov, aspect, near, far), view_projection = projection * view,
   * and becomes clean.
   */
  method UpdateMatrices(camera: Camera?)
    requires camera != null ==> camera.Consistent()
    modifies camera
    ensures camera != null && !old(camera.matricesDirty) ==> unchanged(camera)
    ensures camera != null ==>
      ParametersUnchanged(camera) && !camera.matricesDirty && camera.Consistent()
  {
    if camera == null || !camera.matricesDirty {
      return;
    }
    camera.viewMatrix := LookAt(camera.position, camera.target, camera.up);
    camera.projectionMatrix := Perspective(camera.fieldOfView, camera.aspectRatio,
                                           camera.nearPlane, camera.farPlane);
    camera.viewProjection := Multiply(camera.projectionMatrix, camera.viewMatrix);
    camera.matricesDirty := false;
  }

  /** `camera_set_position`: only the position changes, and the cache becomes dirty. */
  method SetPosition(camera: Camera?, position: Vec3f)
    modifies camera
    ensures camera != null ==>
      camera.position == position && camera.matricesDirty && camera.Consistent() &&
      camera.target == old(camera.target) && camera.up == old(camera.up) &&
      camera.fieldOfView == old(camera.fieldOfView) && camera.aspectRatio == old(camera.aspectRatio) &&
      camera.nearPlane == old(camera.nearPlane) && camera.farPlane == old(camera.farPlane) &&
      camera.viewMatrix == old(camera.viewMatrix) && camera.projectionMatrix == old(camera.projectionMatrix) &&
      camera.viewProjection == old(camera.viewProjection)
  {
    if camera == null {
      return;
    }
    camera.position := position;
    camera.matricesDirty := true;
  }

  /** `camera_set_target`: only the target changes, and the cache becomes dirty. */
  method SetTarget(camera: Camera?, target: Vec3f)
    modifies camera
    ensures camera != null ==>
      camera.target == target && camera.matricesDirty && camera.Consistent() &&
      camera.position == old(camera.position) && camera.up == old(camera.up) &&
      camera.fieldOfView == old(camera.fieldOfView) && camera.aspectRatio == old(camera.aspectRatio) &&
      camera.nearPlane == old(camera.nearPlane) && camera.farPlane == old(camera.farPlane) &&
      camera.viewMatrix == old(camera.viewMatrix) && camera.projectionMatrix == old(camera.projectionMatrix) &&
      camera.viewProjection == old(camera.viewProjection)
  {
    if camera == null {
      return;
    }
    camera.target := target;
    camera.matricesDirty := true;
  }

  /** `camera_set_aspect_ratio`: only the aspect ratio changes, and the cache becomes dirty. */
  method SetAspectRatio(camera: Camera?, aspectRatio: F32)
    modifies camera
    ensures camera != null ==>
      camera.aspectRatio == aspectRatio && camera.matricesDirty && camera.Consistent() &&
      camera.position == old(camera.position) && camera.target == old(camera.target) &&
      camera.up == old(camera.up) && camera.fieldOfView == old(camera.fieldOfView) &&
      camera.nearPlane == old(camera.nearPlane) && camera.farPlane == old(camera.farPlane) &&
      camera.viewMatrix == old(camera.viewMatrix) && camera.projectionMatrix == old(camera.projectionMatrix) &&
      camera.viewProjection == old(camera.viewProjection)
  {
    if camera == null {
      return;
    }
    camera.aspectRatio := aspectRatio;
    camera.matricesDirty := true;
  }

  /**
   * `camera_get_view_matrix`: none for a null camera; otherwise the camera is
   * brought up to date first, so the result is the view matrix of the current
   * parameters. A camera that was already clean is not touched, so repeated
   * reads with no setter in between recompute nothing.
   */
  method GetViewMatrix(camera: Camera?) returns (r: Option<Matrix>)
    requires camera != null ==> camera.Consistent()
    modifies camera
    ensures camera == null ==> r == None
    ensures camera != null ==>
      r == Some(camera.View()) && r == Some(camera.viewMatrix) &&
      ParametersUnchanged(camera) && !camera.matricesDirty && camera.Consistent()
    ensures camera != null && !old(camera.matricesDirty) ==> unchanged(camera)
  {
    if camera == null {
      return None;
    }
    UpdateMatrices(camera);
    return Some(camera.viewMatrix);
  }

  /** `camera_get_projection_matrix`: as `GetViewMatrix`, for the projection matrix. */
  method GetProjectionMatrix(camera: Camera?) returns (r: Option<Matrix>)
    requires camera != null ==> camera.Consistent()
    modifies camera
    ensures camera == null ==> r == None
    ensures camera != null ==>
      r == Some(camera.Projection()) && r == Some(camera.projectionMatrix) &&
      ParametersUnchanged(camera) && !camera.matricesDirty && camera.Consistent()
    ensures camera != null && !old(camera.matricesDirty) ==> unchanged(camera)
  {
    if camera == null {
      return None;
    }
    UpdateMatrices(camera);
    return Some(camera.projectionMatrix);
  }

  /** `camera_get_view_projection_matrix`: as `GetViewMatrix`, for projection * view. */
  method GetViewProjectionMatrix(camera: Camera?) returns (r: Option<Matrix>)
    requires camera != null ==> camera.Consistent()
    modifies camera
    ensures camera == null ==> r == None
    ensures camera != null ==>
      r == Some(Multiply(camera.Projection(), camera.View())) && r == Some(camera.viewProjection) &&
      ParametersUnchanged(camera) && !camera.matricesDirty && camera.Consistent()
    ensures camera != null && !old(camera.matricesDirty) ==> unchanged(camera)
  {
    if camera == null {
      return None;
    }
    UpdateMatrices(camera);
    return Some(camera.viewProjection);
  }
}
