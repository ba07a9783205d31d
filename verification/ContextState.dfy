/** The record of src/ringl_internal.h, as far as it is modelled. Arrays that C
    embeds in the record are `seq` fields: no other pointer can alias them. */
module ContextState {
  import opened Limits
  import opened StagingBlocks

  // Tokens of include/ringl/ringl.h that several modules name.
  const TEXTURE_2D: nat := 0x0de1
  const TEXTURE_CUBE_MAP: nat := 0x8513
  const POSITIVE_X: nat := 0x8515
  const DEPTH_COMPONENT32F: nat := 0x8cac
  const DEPTH24_STENCIL8: nat := 0x88f0

  // ------------------------------------------------------- object records

  datatype ObjectType =
    | NoType | BufferType | ShaderType | ProgramType | TextureType
    | FramebufferType | RenderbufferType | VertexArrayType

  datatype SlotState = Free | Reserved | Live

  datatype Slot = Slot(generation: nat, kind: ObjectType, state: SlotState)

  datatype Error = NoError | InvalidEnum | InvalidValue | InvalidOperation | OutOfMemory | InvalidFramebufferOperation

  /** The part of a vertex attribute that belongs to a vertex array. */
  datatype Descriptor = Descriptor(
    enabled: bool, size: nat, componentType: nat, normalized: bool,
    stride: nat, divisor: nat, buffer: nat, offset: nat)

  datatype Vec4 = Vec4(x: real, y: real, z: real, w: real)

  /** A working attribute: the descriptor, and the current value that stays with
      the context whatever vertex array is bound. */
  datatype VertexAttrib = VertexAttrib(descriptor: Descriptor, current: Vec4)

  datatype VertexArrayState = VertexArrayState(elementArrayBuffer: nat, descriptors: seq<Descriptor>)

  datatype AttachmentKind = NoAttachment | TextureAttachment | RenderbufferAttachment

  datatype Attachment = Attachment(kind: AttachmentKind, name: nat, level: nat, arrayLayer: nat)

  datatype FramebufferObject = FramebufferObject(color: seq<Attachment>, depth: Attachment, stencil: Attachment)

  type byte = b: int | 0 <= b < 256

  /** RinGLBufferObject. `handle == 0` and `bytes == []` are the empty buffer; the
      size is the length of the shadow bytes. */
  datatype BufferObject = BufferObject(handle: nat, bytes: seq<byte>, usage: nat)

  const ZERO_BUFFER := BufferObject(0, [], 0)

  /** RinGLTextureMipStorage. `bytes == []` is the NULL shadow pointer; the shadow
      size is the length. */
  datatype MipStorage = MipStorage(bytes: seq<byte>, width: nat, height: nat, defined: bool, generated: bool)

  /** RinGLTextureCubeFaceStorage. */
  datatype CubeFace = CubeFace(
    bytes: seq<byte>, width: nat, height: nat, format: nat, componentType: nat,
    compressedFormat: nat, srgb: bool, defined: bool, mips: seq<MipStorage>)

  /** RinGLTextureObject: level zero in flat fields, higher levels in `mips`. */
  datatype TextureObject = TextureObject(
    target: nat, image: nat, bytes: seq<byte>, width: nat, height: nat, format: nat, componentType: nat,
    compressedFormat: nat, srgb: bool, defined: bool, mips: seq<MipStorage>, faces: seq<CubeFace>,
    requiresColorTarget: bool)

  datatype RenderbufferObject = RenderbufferObject(internalFormat: nat, width: nat, height: nat, defined: bool)

  const NO_MIP := MipStorage([], 0, 0, false, false)

  function NoMips(): seq<MipStorage> {
    [NO_MIP, NO_MIP, NO_MIP, NO_MIP, NO_MIP, NO_MIP, NO_MIP, NO_MIP, NO_MIP, NO_MIP, NO_MIP, NO_MIP]
  }

  function NoFace(): CubeFace { CubeFace([], 0, 0, 0, 0, 0, false, false, NoMips()) }

  function ZeroTexture(): TextureObject {
    TextureObject(0, 0, [], 0, 0, 0, 0, 0, false, false, NoMips(),
                  [NoFace(), NoFace(), NoFace(), NoFace(), NoFace(), NoFace()], false)
  }

  const ZERO_RENDERBUFFER := RenderbufferObject(0, 0, 0, false)

  const ZERO_DESCRIPTOR := Descriptor(false, 0, 0, false, 0, 0, 0, 0)

  const BYTE_TYPE: nat := 0x1400
  const UNSIGNED_BYTE_TYPE: nat := 0x1401
  const SHORT_TYPE: nat := 0x1402
  const UNSIGNED_SHORT_TYPE: nat := 0x1403
  const FLOAT_TYPE: nat := 0x1406

  /** Size 4 and type FLOAT, as ringl_context_create and ringl_gen_vertex_arrays set it. */
  const DEFAULT_DESCRIPTOR := ZERO_DESCRIPTOR.(size := 4, componentType := FLOAT_TYPE)

  const NO_ATTACHMENT := Attachment(NoAttachment, 0, 0, 0)

  const ZERO_FRAMEBUFFER := FramebufferObject([NO_ATTACHMENT, NO_ATTACHMENT, NO_ATTACHMENT, NO_ATTACHMENT], NO_ATTACHMENT, NO_ATTACHMENT)

  const ZERO_ARRAY := UniformArray(ZERO_DESCRIPTOR)

  const DEFAULT_ARRAY := UniformArray(DEFAULT_DESCRIPTOR)

  function UniformArray(d: Descriptor): VertexArrayState {
    VertexArrayState(0, [d, d, d, d, d, d, d, d, d, d, d, d, d, d, d, d])
  }

  /** The process-wide counter of src/context/context.c and its malloc. Addresses
      are never reused, so `nextAddress` stands for every address still to come. */
  class Process {
    var globalBytes: nat
    var nextAddress: nat

    constructor ()
      ensures globalBytes == 0 && nextAddress == 1
    {
      globalBytes := 0;
      nextAddress := 1;
    }

    /** malloc: NULL, or an address never handed out before. */
    method Malloc() returns (address: nat)
      requires 0 < nextAddress
      modifies this`nextAddress
      ensures address == 0 || (address == old(nextAddress) && nextAddress == address + 1)
      ensures address == 0 ==> nextAddress == old(nextAddress)
    {
      var succeeds: bool := *;
      if succeeds {
        address := nextAddress;
        nextAddress := nextAddress + 1;
      } else {
        address := 0;
      }
    }
  }

  /** Destroying handle zero destroys nothing. */
  function Without(objects: map<nat, seq<byte>>, handle: nat): map<nat, seq<byte>> {
    if handle == 0 then objects else objects - {handle}
  }

  /** The RinGPU session behind a context: every call may fail. */
  class Backend {
    var objects: map<nat, seq<byte>> // live handles and their contents

    constructor ()
      ensures objects == map[]
    {
      objects := map[];
    }

    /** A create call may fail with or without having made an object. Handles of
        live objects are never handed out again. */
    method CreateObject(size: nat) returns (result: int, handle: nat)
      modifies this
      ensures handle == 0 ==> objects == old(objects)
      ensures handle != 0 ==> handle !in old(objects) && objects.Keys == old(objects).Keys + {handle}
      ensures forall h :: h in old(objects) ==> objects[h] == old(objects)[h]
    {
      result, handle := *, 0;
      var candidate: nat := *;
      var made: bool := *;
      if made && candidate != 0 && candidate !in objects {
        handle := candidate;
        objects := objects[handle := seq(size, _ => 0)];
      }
    }

    /** A failed upload may leave anything in the object it was writing. */
    method UploadObject(handle: nat, data: seq<byte>) returns (result: int)
      requires handle in objects
      modifies this
      ensures objects.Keys == old(objects).Keys
      ensures forall h :: h in objects && h != handle ==> objects[h] == old(objects)[h]
      ensures result == 0 ==> objects[handle] == data
    {
      result := *;
      var written: seq<byte> := *;
      objects := objects[handle := if result == 0 then data else written];
    }

    method DestroyObject(handle: nat)
      modifies this
      ensures objects == Without(old(objects), handle)
    {
      if handle == 0 {
        return;
      }
      objects := objects - {handle};
    }
  }

  class Context {
    const process: Process
    const backend: Backend
    const recordBytes: nat

    // The ledger.
    var active: nat
    var cached: nat
    var blocks: seq<Block>

    // Errors: the first one recorded stays until it is read.
    var pendingError: Error

    // Object names and the records they select.
    var slots: seq<Slot>
    var buffers: seq<BufferObject>
    var vertexArrays: seq<VertexArrayState>
    var framebuffers: seq<FramebufferObject>
    var textures: seq<TextureObject>
    var renderbuffers: seq<RenderbufferObject>

    // Bindings.
    var arrayBuffer: nat
    var elementArrayBuffer: nat
    var vertexArrayBinding: nat
    var framebufferBinding: nat
    var renderbufferBinding: nat
    var activeTextureUnit: nat
    var boundTexture2D: seq<nat>
    var boundTextureCube: seq<nat>

    // The working copy of the bound vertex array.
    var attribs: seq<VertexAttrib>
    var defaultVertexArray: VertexArrayState
    var instancedArraysEnabled: bool
    var drawBuffersEnabled: bool

    /** The calloc'd record of ringl_context_create. */
    constructor (process: Process, backend: Backend, recordBytes: nat)
      ensures this.process == process && this.backend == backend && this.recordBytes == recordBytes
      ensures active == 0 && cached == 0 && blocks == [NO_BLOCK, NO_BLOCK, NO_BLOCK, NO_BLOCK]
      ensures pendingError == NoError
      ensures slots == seq(OBJECT_SLOT_COUNT, _ => Slot(0, NoType, Free))
      ensures buffers == seq(OBJECT_SLOT_COUNT, _ => ZERO_BUFFER)
      ensures vertexArrays == seq(OBJECT_SLOT_COUNT, _ => ZERO_ARRAY)
      ensures framebuffers == seq(OBJECT_SLOT_COUNT, _ => ZERO_FRAMEBUFFER)
      ensures textures == seq(OBJECT_SLOT_COUNT, _ => ZeroTexture())
      ensures renderbuffers == seq(OBJECT_SLOT_COUNT, _ => ZERO_RENDERBUFFER)
      ensures arrayBuffer == elementArrayBuffer == vertexArrayBinding == 0
      ensures framebufferBinding == renderbufferBinding == activeTextureUnit == 0
      ensures boundTexture2D == boundTextureCube == seq(MAX_TEXTURE_UNITS, _ => 0)
      ensures attribs == seq(MAX_VERTEX_ATTRIBS, _ => VertexAttrib(DEFAULT_DESCRIPTOR, Vec4(0.0, 0.0, 0.0, 1.0)))
      ensures defaultVertexArray == DEFAULT_ARRAY && !instancedArraysEnabled && !drawBuffersEnabled
    {
      this.process := process;
      this.backend := backend;
      this.recordBytes := recordBytes;
      active, cached := 0, 0;
      blocks := [NO_BLOCK, NO_BLOCK, NO_BLOCK, NO_BLOCK];
      pendingError := NoError;
      slots := seq(OBJECT_SLOT_COUNT, _ => Slot(0, NoType, Free));
      buffers := seq(OBJECT_SLOT_COUNT, _ => ZERO_BUFFER);
      vertexArrays := seq(OBJECT_SLOT_COUNT, _ => ZERO_ARRAY);
      framebuffers := seq(OBJECT_SLOT_COUNT, _ => ZERO_FRAMEBUFFER);
      textures := seq(OBJECT_SLOT_COUNT, _ => ZeroTexture());
      renderbuffers := seq(OBJECT_SLOT_COUNT, _ => ZERO_RENDERBUFFER);
      arrayBuffer, elementArrayBuffer, vertexArrayBinding := 0, 0, 0;
      framebufferBinding, renderbufferBinding, activeTextureUnit := 0, 0, 0;
      boundTexture2D, boundTextureCube := seq(MAX_TEXTURE_UNITS, _ => 0), seq(MAX_TEXTURE_UNITS, _ => 0);
      attribs := seq(MAX_VERTEX_ATTRIBS, _ => VertexAttrib(DEFAULT_DESCRIPTOR, Vec4(0.0, 0.0, 0.0, 1.0)));
      defaultVertexArray := DEFAULT_ARRAY;
      instancedArraysEnabled, drawBuffersEnabled := false, false;
    }

    /** What the pending error becomes when an error is recorded. */
    static function Pending(before: Error, error: Error): Error {
      if before == NoError then error else before
    }

    /** ringl_context_record_error. */
    method RecordError(error: Error)
      modifies this`pendingError
      ensures pendingError == Pending(old(pendingError), error)
    {
      if error == NoError {
        return;
      }
      if pendingError == NoError {
        pendingError := error;
      }
    }
  }
}
